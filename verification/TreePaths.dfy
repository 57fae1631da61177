/**
 The reader of the documented file tree in scripts/check_claude_md_freshness.py.

 `ExtractPaths` is the stack loop over the lines of a document.  `PrintForest` draws a forest in
 the box characters that the loop looks for, four columns a level, and `RoundTrip` shows that the
 loop finds exactly the paths of the forest.
 */
module TreePaths {
  import opened Options
  import opened PyText

  const BRANCH := "├── "
  const CORNER := "└── "
  const STEM := "│   "
  const BLANK := "    "
  const HASH := " # "

  datatype Segment = Segment(indent: nat, text: string)

  predicate Documented(path: string) {
    StartsWith(path, "src/notebooklm") || StartsWith(path, "tests")
  }

  // ---------- One line ----------

  predicate Ignored(trimmed: string) {
    trimmed == "" || StartsWith(trimmed, "|") || StartsWith(trimmed, "#") || StartsWith(trimmed, "```")
  }

  /** The marker that decides: a branch anywhere in the line, else a corner, else a stem. */
  function FindMarker(line: string): Option<nat> {
    if Find(line, BRANCH).Some? then Find(line, BRANCH)
    else if Find(line, CORNER).Some? then Find(line, CORNER)
    else Find(line, STEM)
  }

  function Uncommented(text: string): string {
    var cut := Find(text, HASH);
    if cut.Some? then text[..cut.value] else text
  }

  /** A label without its comment, the space around it and its closing slashes. */
  function CleanLabel(text: string): string {
    RStripChar(Strip(Uncommented(text)), '/')
  }

  function ParseLine(line: string): Option<Segment> {
    SegmentAt(line, Strip(line), FindMarker(line))
  }

  function SegmentAt(line: string, trimmed: string, marker: Option<nat>): Option<Segment>
    requires marker.Some? ==> marker.value + 4 <= |line|
  {
    if Ignored(trimmed) then None
    else if marker.None? && !Documented(trimmed) then None
    else
      var indent := if marker.Some? then marker.value / 4 + 1 else 0;
      var text := CleanLabel(if marker.Some? then line[marker.value + 4..] else trimmed);
      if text == "" then None else Some(Segment(indent, text))
  }

  // ---------- The stack ----------

  /** Indents rise strictly from the bottom of the stack. */
  predicate Rising(stack: seq<Segment>) {
    forall i, j :: 0 <= i < j < |stack| ==> stack[i].indent < stack[j].indent
  }

  function Pop(stack: seq<Segment>, indent: nat): seq<Segment> {
    if stack != [] && stack[|stack| - 1].indent >= indent then Pop(stack[..|stack| - 1], indent) else stack
  }

  function Join(stack: seq<Segment>): string {
    if stack == [] then ""
    else if |stack| == 1 then stack[0].text
    else Join(stack[..|stack| - 1]) + "/" + stack[|stack| - 1].text
  }

  function Push(stack: seq<Segment>, s: Segment): seq<Segment> {
    Pop(stack, s.indent) + [s]
  }

  /** The lines that name something. */
  function ParseAll(parse: string -> Option<Segment>, lines: seq<string>): seq<Segment> {
    if lines == [] then []
    else
      var segment, rest := parse(lines[0]), ParseAll(parse, lines[1..]);
      if segment.None? then rest else [segment.value] + rest
  }

  /** The paths satisfying `wanted` that the stack shows as the segments are pushed. */
  function PathsOf(wanted: string -> bool, stack: seq<Segment>, segments: seq<Segment>): set<string>
    decreases |segments|
  {
    if segments == [] then {}
    else
      var pushed := Push(stack, segments[0]);
      var rest := PathsOf(wanted, pushed, segments[1..]);
      if wanted(Join(pushed)) then {Join(pushed)} + rest else rest
  }

  lemma {:induction false} PopIsPrefix(stack: seq<Segment>, indent: nat)
    ensures var r := Pop(stack, indent);
            && |r| <= |stack| && (forall i :: 0 <= i < |r| ==> r[i] == stack[i])
            && (r != [] ==> r[|r| - 1].indent < indent)
  {
    if stack != [] && stack[|stack| - 1].indent >= indent {
      PopIsPrefix(stack[..|stack| - 1], indent);
    }
  }

  lemma {:induction false} PushKeepsRising(stack: seq<Segment>, s: Segment)
    requires Rising(stack)
    ensures Rising(Push(stack, s))
  {
    PopIsPrefix(stack, s.indent);
  }

  /** What is found in a text. */
  predicate Finds(text: string, path: string) {
    path in PathsOf(Documented, [], ParseAll(ParseLine, SplitLines(text)))
  }

  method ExtractPaths(text: string) returns (paths: seq<string>)
    ensures Ascending(paths) && forall path :: path in paths <==> Finds(text, path)
    ensures forall path :: path in paths ==> "src/notebooklm" <= path || "tests" <= path
  {
    FoundIsDocumented([], ParseAll(ParseLine, SplitLines(text)));
    var lines := SplitLines(text);
    var found := FindPaths(lines);
    paths := SortedSet(found);
  }

  lemma {:induction false} FoundIsDocumented(stack: seq<Segment>, segments: seq<Segment>)
    ensures forall path :: path in PathsOf(Documented, stack, segments) ==>
              "src/notebooklm" <= path || "tests" <= path
    decreases |segments|
  {
    if segments != [] {
      FoundIsDocumented(Push(stack, segments[0]), segments[1..]);
    }
  }

  method FindPaths(lines: seq<string>) returns (found: seq<string>)
    ensures forall path :: path in found <==> path in PathsOf(Documented, [], ParseAll(ParseLine, lines))
  {
    found := [];
    ghost var paths: set<string> := {};
    var stack: seq<Segment> := [];
    for i := 0 to |lines|
      invariant Rising(stack)
      invariant forall path :: path in found <==> path in paths
      invariant paths + PathsOf(Documented, stack, ParseAll(ParseLine, lines[i..]))
             == PathsOf(Documented, [], ParseAll(ParseLine, lines))
    {
      assert lines[i..][0] == lines[i] && lines[i..][1..] == lines[i + 1..];
      var parsed := ParseLine(lines[i]);
      if parsed.None? {
        continue;
      }
      ghost var was := stack;
      while stack != [] && stack[|stack| - 1].indent >= parsed.value.indent
        invariant Pop(stack, parsed.value.indent) == Pop(was, parsed.value.indent)
      {
        stack := stack[..|stack| - 1];
      }
      stack := stack + [parsed.value];
      PushKeepsRising(was, parsed.value);
      var path := Join(stack);
      if Documented(path) {
        found := found + [path];
        paths := paths + {path};
      }
    }
  }

  // ---------- Printing a forest ----------

  /** A node as documented: its name, perhaps a slash, some spaces, perhaps a comment. */
  datatype Tree = Node(name: string, slash: bool, spaces: nat, comment: Option<string>, children: seq<Tree>)

  function Base(t: Tree): string {
    if t.slash then t.name + "/" else t.name
  }

  function Spaces(n: nat): (s: string)
    ensures |s| == n && forall i :: 0 <= i < n ==> s[i] == ' '
  {
    seq(n, _ => ' ')
  }

  function Label(t: Tree): string {
    if t.comment.Some? then Base(t) + Spaces(t.spaces) + HASH + t.comment.value else Base(t) + Spaces(t.spaces)
  }

  function Marked(prefix: string, last: bool, text: string): string {
    prefix + (if last then CORNER else BRANCH) + text
  }

  function ChildLine(prefix: string, last: bool, t: Tree): string {
    Marked(prefix, last, Label(t))
  }

  function Deeper(prefix: string, last: bool): string {
    prefix + (if last then BLANK else STEM)
  }

  function PrintChildren(children: seq<Tree>, prefix: string): seq<string>
    decreases children
  {
    if children == [] then []
    else
      var t, last := children[0], |children| == 1;
      [ChildLine(prefix, last, t)] + PrintChildren(t.children, Deeper(prefix, last))
      + PrintChildren(children[1..], prefix)
  }

  function PrintTree(root: Tree): seq<string> {
    [Label(root)] + PrintChildren(root.children, "")
  }

  function PrintForest(roots: seq<Tree>): seq<string> {
    if roots == [] then [] else PrintTree(roots[0]) + PrintForest(roots[1..])
  }

  function Draw(roots: seq<Tree>): string {
    JoinLines(PrintForest(roots))
  }

  /** No hash after a space, so nothing that could be taken for a comment. */
  predicate NoComment(s: string) {
    forall k :: 0 <= k < |s| - 1 ==> s[k] != ' ' || s[k + 1] != '#'
  }

  predicate GoodName(name: string) {
    Trimmed(name) && NoComment(name) && name[|name| - 1] != '/'
  }

  /** The corner before a last child is looked for only when there is no branch in the line. */
  predicate GoodTree(t: Tree, last: bool)
    decreases t
  {
    && GoodName(t.name) && OneLine(Label(t))
    && (last ==> Find(Label(t), BRANCH).None?)
    && forall i :: 0 <= i < |t.children| ==> GoodTree(t.children[i], i == |t.children| - 1)
  }

  ghost predicate AllGood(trees: seq<Tree>) {
    forall i :: 0 <= i < |trees| ==> GoodTree(trees[i], i == |trees| - 1)
  }

  /** Nothing is read from this line of an undocumented root. */
  predicate Skipped(t: Tree) {
    || "|" <= t.name || "#" <= t.name || "```" <= t.name
    || match FindMarker(Label(t))
       case None => true
       case Some(at) => CleanLabel(Label(t)[at + 4..]) == ""
  }

  /** The line of a documented root has no marker and no comment of mere space, that of any other is
      skipped. */
  ghost predicate GoodRoot(t: Tree) {
    && GoodName(t.name) && OneLine(Label(t)) && AllGood(t.children)
    && if Documented(t.name)
       then FindMarker(Label(t)).None? && (t.comment.Some? ==> !AllSpace(t.comment.value))
       else Skipped(t)
  }

  ghost predicate AllGoodRoots(roots: seq<Tree>) {
    forall i :: 0 <= i < |roots| ==> GoodRoot(roots[i])
  }

  function Under(path: Option<string>, name: string): string {
    match path case None => name case Some(p) => p + "/" + name
  }

  /** The paths of the nodes below `path`. */
  function PathsBelow(path: Option<string>, children: seq<Tree>): set<string>
    decreases children
  {
    if children == [] then {}
    else
      var here := Under(path, children[0].name);
      {here} + PathsBelow(Some(here), children[0].children) + PathsBelow(path, children[1..])
  }

  function TreeAndBelow(root: Tree): set<string> {
    {root.name} + PathsBelow(Some(root.name), root.children)
  }

  // ---------- A printed line reads back ----------

  lemma {:induction false} CommentIsCut(text: string, before: string, comment: string)
    requires NoComment(before) && text == before + HASH + comment
    ensures Uncommented(text) == before
  {
    var at := |before|;
    assert text[at..at + 3] == HASH;
    forall k | 0 <= k < at ensures text[k] != ' ' || text[k + 1] != '#' {
      assert text[k] == before[k] && (k + 1 < at ==> text[k + 1] == before[k + 1]);
    }
    FindIsPair(text, HASH, 0, at);
  }

  lemma {:induction false} NothingIsCut(text: string)
    requires NoComment(text)
    ensures Uncommented(text) == text
  {
    FindNoPair(text, HASH, 0);
  }

  lemma {:induction false} BaseHasNoComment(t: Tree, gap: string)
    requires GoodName(t.name) && forall i :: 0 <= i < |gap| ==> gap[i] == ' '
    ensures NoComment(Base(t) + gap)
  {
  }

  lemma {:induction false} BaseCleans(t: Tree, gap: string)
    requires GoodName(t.name) && AllSpace(gap)
    ensures RStripChar(Strip(Base(t) + gap), '/') == t.name
  {
    var base := Base(t);
    assert Trimmed(base);
    assert base + gap == "" + base + gap;
    StripPadding("", base, gap);
    assert t.slash ==> base[..|base| - 1] == t.name;
  }

  lemma {:induction false} LabelCleans(t: Tree)
    requires GoodName(t.name)
    ensures CleanLabel(Label(t)) == t.name && CleanLabel(Base(t)) == t.name
  {
    var base, gap := Base(t), Spaces(t.spaces);
    BaseHasNoComment(t, gap);
    BaseHasNoComment(t, "");
    assert base + "" == base;
    if t.comment.Some? {
      CommentIsCut(Label(t), base + gap, t.comment.value);
    } else {
      NothingIsCut(base + gap);
    }
    BaseCleans(t, gap);
    NothingIsCut(base);
    BaseCleans(t, "");
  }

  predicate Box(c: char) {
    c == '├' || c == '└' || c == '│'
  }

  lemma {:induction false} StripStartsAtBox(s: string, j: nat)
    requires j < |s| && !IsSpace(s[j]) && forall i :: 0 <= i <= j ==> IsSpace(s[i]) || Box(s[i])
    ensures Strip(s) != "" && Box(Strip(s)[0])
  {
    if IsSpace(s[0]) {
      StripStartsAtBox(s[1..], j - 1);
    } else {
      RStripKeepsFirst(s);
    }
  }

  lemma {:induction false} RStripKeepsFirst(s: string)
    requires s != "" && !IsSpace(s[0])
    ensures RStrip(s) != "" && RStrip(s)[0] == s[0]
  {
    if IsSpace(s[|s| - 1]) {
      RStripKeepsFirst(s[..|s| - 1]);
    }
  }

  /** The columns before a marker. */
  predicate Columns(prefix: string, depth: nat) {
    |prefix| == 4 * depth && forall i :: 0 <= i < |prefix| ==> prefix[i] == ' ' || prefix[i] == '│'
  }

  lemma {:induction false} NoBranchBefore(prefix: string, depth: nat, last: bool, text: string, k: nat)
    requires Columns(prefix, depth) == true && k < |prefix| + (if last then 4 else 0)
    ensures Marked(prefix, last, text)[k] != '├' && (k < |prefix| ==> Marked(prefix, last, text)[k] != '└')
  {
    assert k < |prefix| ==> Marked(prefix, last, text)[k] == prefix[k];
    assert k >= |prefix| ==> Marked(prefix, last, text)[k] == CORNER[k - |prefix|];
  }

  lemma {:induction false} BranchIsFound(prefix: string, depth: nat, text: string)
    requires Columns(prefix, depth) == true
    ensures FindMarker(Marked(prefix, false, text)) == Some(4 * depth)
  {
    var line := Marked(prefix, false, text);
    assert line[|prefix|..|prefix| + 4] == BRANCH;
    forall k | 0 <= k < |prefix| ensures line[k] != '├' {
      NoBranchBefore(prefix, depth, false, text, k);
    }
    FindIs(line, BRANCH, 0, 0, |prefix|);
  }

  /** A branch after the corner is found first. */
  lemma {:induction false} BranchAfterCorner(prefix: string, depth: nat, text: string)
    requires Columns(prefix, depth) == true
    ensures var at := Find(Marked(prefix, true, text), BRANCH);
            && (at.None? <==> Find(text, BRANCH).None?)
            && (at.Some? ==> at.value == 4 * depth + 4 + Find(text, BRANCH).value)
  {
    var line := Marked(prefix, true, text);
    forall k | 0 <= k < |prefix| + 4 ensures line[k] != '├' {
      NoBranchBefore(prefix, depth, true, text, k);
    }
    FindSkips(line, BRANCH, 0, |prefix| + 4);
    FindInSuffix(line, prefix + CORNER, text, BRANCH, 0, |prefix| + 4);
  }

  lemma {:induction false} CornerIsFound(prefix: string, depth: nat, text: string)
    requires Columns(prefix, depth) == true
    ensures Find(Marked(prefix, true, text), CORNER) == Some(4 * depth)
  {
    var line := Marked(prefix, true, text);
    assert line[|prefix|..|prefix| + 4] == CORNER;
    forall k | 0 <= k < |prefix| ensures line[k] != '└' {
      NoBranchBefore(prefix, depth, true, text, k);
    }
    FindIs(line, CORNER, 0, 0, |prefix|);
  }

  /** The marker is found where it was drawn, unless a branch follows a corner. */
  lemma {:induction false} MarkerIsFound(prefix: string, depth: nat, last: bool, text: string)
    requires Columns(prefix, depth) == true
    ensures !last || Find(text, BRANCH).None? ==> FindMarker(Marked(prefix, last, text)) == Some(4 * depth)
    ensures last && Find(text, BRANCH).Some? ==>
              FindMarker(Marked(prefix, last, text)) == Some(4 * depth + 4 + Find(text, BRANCH).value)
  {
    if last {
      BranchAfterCorner(prefix, depth, text);
      CornerIsFound(prefix, depth, text);
    } else {
      BranchIsFound(prefix, depth, text);
    }
  }

  lemma {:induction false} ChildLineKept(prefix: string, depth: nat, last: bool, text: string)
    requires Columns(prefix, depth) == true
    ensures !Ignored(Strip(Marked(prefix, last, text)))
  {
    var at, marker, line := |prefix|, if last then CORNER else BRANCH, Marked(prefix, last, text);
    assert line[at] == marker[0];
    forall i | 0 <= i <= at ensures IsSpace(line[i]) || Box(line[i]) {
      assert i < at ==> line[i] == prefix[i];
    }
    StripStartsAtBox(line, at);
  }

  lemma {:induction false} AfterMarker(prefix: string, depth: nat, last: bool, text: string)
    requires Columns(prefix, depth) == true
    ensures |Marked(prefix, last, text)| >= 4 * depth + 4 && Marked(prefix, last, text)[4 * depth + 4..] == text
  {
  }

  ghost predicate IsParser(parse: string -> Option<Segment>) {
    forall line {:trigger ParseLine(line)} :: parse(line) == ParseLine(line)
  }

  /** `ParsesAs`, `Reads` and `Rests` name equalities; the lemmas state them as `== true`, so that the
      verifier does not compare strings and sequences element by element at every call. */
  predicate ParsesAs(parse: string -> Option<Segment>, line: string, s: Segment) {
    parse(line) == Some(s)
  }

  lemma {:induction false} MarkedSegment(line: string, trimmed: string, depth: nat, text: string)
    requires !Ignored(trimmed) && CleanLabel(text) != ""
    requires 4 * depth + 4 <= |line| && line[4 * depth + 4..] == text
    ensures SegmentAt(line, trimmed, Some(4 * depth)) == Some(Segment(depth + 1, CleanLabel(text)))
  {
    assert 4 * depth / 4 == depth;
  }

  lemma {:induction false} MarkedLineParses(
    parse: string -> Option<Segment>, line: string, depth: nat, text: string, name: string)
    requires IsParser(parse) && FindMarker(line) == Some(4 * depth) && !Ignored(Strip(line))
    requires 4 * depth + 4 <= |line| && line[4 * depth + 4..] == text && CleanLabel(text) == name && name != ""
    ensures ParsesAs(parse, line, Segment(depth + 1, name)) == true
  {
    MarkedSegment(line, Strip(line), depth, text);
    assert ParseLine(line).Some?;
  }

  lemma {:induction false} ChildLineParses(
    parse: string -> Option<Segment>, prefix: string, depth: nat, last: bool, text: string, name: string)
    requires IsParser(parse) == true && Columns(prefix, depth) == true
    requires (last ==> Find(text, BRANCH).None?) && CleanLabel(text) == name && name != ""
    ensures ParsesAs(parse, Marked(prefix, last, text), Segment(depth + 1, name)) == true
  {
    ChildLineKept(prefix, depth, last, text);
    MarkerIsFound(prefix, depth, last, text);
    AfterMarker(prefix, depth, last, text);
    MarkedLineParses(parse, Marked(prefix, last, text), depth, text, name);
  }

  lemma {:induction false} SegmentIndent(line: string, trimmed: string, at: nat)
    requires at + 4 <= |line|
    ensures SegmentAt(line, trimmed, Some(at)).Some? ==> SegmentAt(line, trimmed, Some(at)).value.indent == at / 4 + 1
  {
  }

  /** A drawn child line reads back exactly unless it has a corner and, further on, a branch. */
  lemma {:induction false} ChildLineExactly(prefix: string, depth: nat, last: bool, t: Tree)
    requires Columns(prefix, depth) && GoodName(t.name)
    ensures ParseLine(ChildLine(prefix, last, t)) == Some(Segment(depth + 1, t.name))
       <==> !last || Find(Label(t), BRANCH).None?
  {
    var line := ChildLine(prefix, last, t);
    if !last || Find(Label(t), BRANCH).None? {
      LabelCleans(t);
      ChildLineParses(ParseLine, prefix, depth, last, Label(t), t.name);
    } else {
      MarkerIsFound(prefix, depth, last, Label(t));
      SegmentIndent(line, Strip(line), FindMarker(line).value);
    }
  }

  // ---------- The line of a root ----------

  /** What `strip` leaves of the label beside name and slash. */
  function Remainder(t: Tree): string {
    match t.comment
    case None => ""
    case Some(text) =>
      if AllSpace(text) then Spaces(t.spaces) + " #" else Spaces(t.spaces) + HASH + RStrip(text)
  }

  lemma {:induction false} BlankCommentStrips(base: string, gap: string, text: string)
    requires Trimmed(base) && AllSpace(text)
    ensures Strip(base + gap + HASH + text) == base + (gap + " #")
  {
    var kept, tail := base + (gap + " #"), " " + text;
    assert kept[0] == base[0];
    assert base + gap + HASH + text == "" + kept + tail;
    StripPadding("", kept, tail);
  }

  lemma {:induction false} CommentStrips(base: string, gap: string, text: string)
    requires Trimmed(base) && !AllSpace(text)
    ensures Strip(base + gap + HASH + text) == base + (gap + HASH + RStrip(text))
  {
    var tail := RStripSplits(text);
    var kept := base + (gap + HASH + RStrip(text));
    assert kept[0] == base[0] && kept[|kept| - 1] == RStrip(text)[|RStrip(text)| - 1];
    assert base + gap + HASH + text == "" + kept + tail;
    StripPadding("", kept, tail);
  }

  lemma {:induction false} RootStrips(t: Tree)
    requires GoodName(t.name)
    ensures Strip(Label(t)) == Base(t) + Remainder(t)
  {
    var base, gap := Base(t), Spaces(t.spaces);
    assert Trimmed(base);
    if t.comment.None? {
      assert Label(t) == "" + base + gap && base + Remainder(t) == base;
      StripPadding("", base, gap);
    } else if AllSpace(t.comment.value) {
      BlankCommentStrips(base, gap, t.comment.value);
    } else {
      CommentStrips(base, gap, t.comment.value);
    }
  }

  lemma {:induction false} RemainderStart(t: Tree)
    ensures Remainder(t) != "" ==> Remainder(t)[0] == ' '
  {
    if t.comment.Some? && t.spaces > 0 {
      assert Remainder(t)[0] == Spaces(t.spaces)[0];
    }
  }

  /** Neither documented root can begin with a name and go on with a slash and a space. */
  lemma {:induction false} DocumentedByName(name: string, slash: string, rest: string)
    requires name != "" && name[|name| - 1] != '/' && slash in ["", "/"] && (rest != "" ==> rest[0] == ' ')
    ensures Documented(name + slash + rest) <==> Documented(name)
  {
    var whole := name + slash + rest;
    assert forall k :: 0 <= k < |name| ==> whole[k] == name[k];
    assert slash == "/" ==> whole[|name|] == '/';
    assert rest != "" ==> whole[|name| + |slash|] == ' ';
    RootBeginsWith("src/notebooklm", name, slash, rest, whole);
    RootBeginsWith("tests", name, slash, rest, whole);
  }

  lemma {:induction false} RootBeginsWith(root: string, name: string, slash: string, rest: string, whole: string)
    requires root in ["src/notebooklm", "tests"] && whole == name + slash + rest
    requires name != "" && name[|name| - 1] != '/' && slash in ["", "/"] && (rest != "" ==> rest[0] == ' ')
    ensures StartsWith(whole, root) <==> StartsWith(name, root)
  {
    var n := |name|;
    assert forall k :: 0 <= k < n ==> whole[k] == name[k];
    assert n < |whole| ==> whole[n] == if slash == "/" then '/' else ' ';
    assert slash == "/" && n + 1 < |whole| ==> whole[n + 1] == ' ';
  }

  lemma {:induction false} RootIsDocumented(t: Tree)
    requires GoodName(t.name)
    ensures Documented(Strip(Label(t))) <==> Documented(t.name)
  {
    RootStrips(t);
    RemainderStart(t);
    var slash := if t.slash then "/" else "";
    assert Base(t) == t.name + slash;
    DocumentedByName(t.name, slash, Remainder(t));
  }

  lemma {:induction false} DocumentedIsKept(trimmed: string)
    requires Documented(trimmed)
    ensures !Ignored(trimmed)
  {
    assert trimmed[0] == 's' || trimmed[0] == 't';
  }

  lemma {:induction false} NothingIsCutBeforeHash(text: string, before: string)
    requires NoComment(before) && text == before + " #"
    ensures Uncommented(text) == text
  {
    assert text[|before|] == ' ';
    forall k | 0 <= k && k + |HASH| <= |text| ensures text[k] != ' ' || text[k + 1] != '#' {
      if k + 1 < |before| {
        assert text[k] == before[k] && text[k + 1] == before[k + 1];
      }
    }
    FindNoPair(text, HASH, 0);
  }

  lemma {:induction false} HashIsNotStripped(base: string, text: string, rest: string)
    requires Trimmed(base) && text == base + rest + " #"
    ensures RStripChar(Strip(text), '/') == text
  {
    assert text[0] == base[0] && text[|text| - 1] == '#';
    assert text == "" + text + "";
    StripPadding("", text, "");
  }

  /** A comment of mere space loses the space after its hash, and is taken for a part of the name. */
  lemma {:induction false} BlankCommentStays(t: Tree, text: string)
    requires GoodName(t.name) && text == Base(t) + Spaces(t.spaces) + " #"
    ensures CleanLabel(text) == text
  {
    BaseHasNoComment(t, Spaces(t.spaces));
    NothingIsCutBeforeHash(text, Base(t) + Spaces(t.spaces));
    assert Trimmed(Base(t));
    HashIsNotStripped(Base(t), text, Spaces(t.spaces));
  }

  lemma {:induction false} TrimmedCleans(t: Tree)
    requires GoodName(t.name)
    ensures CleanLabel(Strip(Label(t))) == t.name <==> !(t.comment.Some? && AllSpace(t.comment.value))
    ensures CleanLabel(Strip(Label(t))) != ""
  {
    var base, gap := Base(t), Spaces(t.spaces);
    RootStrips(t);
    if t.comment.None? {
      assert base + Remainder(t) == base;
      LabelCleans(t);
    } else if AllSpace(t.comment.value) {
      assert base + Remainder(t) == base + gap + " #";
      BlankCommentStays(t, base + gap + " #");
      assert |base + gap + " #"| > |t.name|;
    } else {
      BaseHasNoComment(t, gap);
      assert base + Remainder(t) == (base + gap) + HASH + RStrip(t.comment.value);
      CommentIsCut(base + Remainder(t), base + gap, RStrip(t.comment.value));
      BaseCleans(t, gap);
    }
  }

  /** The line of a documented root reads back exactly when it has no marker in it and no comment of
      mere space. */
  lemma {:induction false} RootLineExactly(t: Tree)
    requires GoodName(t.name) && Documented(t.name)
    ensures ParseLine(Label(t)) == Some(Segment(0, t.name))
       <==> FindMarker(Label(t)).None? && (t.comment.Some? ==> !AllSpace(t.comment.value))
  {
    var line := Label(t);
    RootIsDocumented(t);
    DocumentedIsKept(Strip(line));
    TrimmedCleans(t);
    if FindMarker(line).Some? {
      SegmentIndent(line, Strip(line), FindMarker(line).value);
    }
  }

  lemma {:induction false} IgnoredByName(name: string, rest: string)
    requires name != "" && (rest != "" ==> rest[0] != '`')
    ensures Ignored(name + rest) == Ignored(name)
  {
    var text := name + rest;
    assert text[0] == name[0];
    if |name| < 3 && |text| >= 3 {
      assert text[|name|] == rest[0];
      assert !StartsWith(text, "```") by {
        assert "```"[|name|] == '`';
      }
    } else if |name| >= 3 {
      assert text[..3] == name[..3];
    }
  }

  /** In a line without branch or corner a stem counts as one: what follows it is read one level below. */
  lemma {:induction false} StemCounts(line: string, p: nat)
    requires Find(line, BRANCH).None? && Find(line, CORNER).None? && Find(line, STEM) == Some(p)
    requires var text := Strip(line); text != "" && !("|" <= text) && !("#" <= text) && !("```" <= text)
    ensures p + 4 <= |line|
    ensures var name := CleanLabel(line[p + 4..]);
            ParseLine(line) == if name == "" then None else Some(Segment(p / 4 + 1, name))
  {
    assert FindMarker(line) == Some(p);
  }

  /** Nothing is read from an empty line, nor from one that begins like a table, a heading or a fence. */
  lemma {:induction false} IgnoredLine(line: string)
    requires var text := Strip(line); text == "" || "|" <= text || "#" <= text || "```" <= text
    ensures ParseLine(line).None?
  {
  }

  lemma {:induction false} JoinLeft(a: string, b: string, c: string)
    ensures (a + b) + c == a + (b + c)
  {
  }

  /** What follows the name in a stripped label. */
  lemma {:induction false} AfterName(t: Tree) returns (rest: string)
    requires GoodName(t.name)
    ensures Strip(Label(t)) == t.name + rest && (rest != "" ==> rest[0] != '`')
  {
    RootStrips(t);
    RemainderStart(t);
    rest := if t.slash then "/" + Remainder(t) else Remainder(t);
    if t.slash {
      JoinLeft(t.name, "/", Remainder(t));
    }
  }

  lemma {:induction false} RootIsIgnored(t: Tree)
    requires GoodName(t.name)
    ensures Ignored(Strip(Label(t))) == Ignored(t.name)
  {
    var rest := AfterName(t);
    IgnoredByName(t.name, rest);
  }

  /** The line of any other root is skipped exactly when its name says so, or it has no marker, or
      nothing is left below the marker. */
  lemma {:induction false} OtherRootLineExactly(t: Tree)
    requires GoodName(t.name) && !Documented(t.name)
    ensures ParseLine(Label(t)).None? <==> Skipped(t)
  {
    RootIsDocumented(t);
    RootIsIgnored(t);
    assert t.name != "";
    NothingIsRead(Label(t), Strip(Label(t)), FindMarker(Label(t)));
  }

  lemma {:induction false} NothingIsRead(line: string, trimmed: string, marker: Option<nat>)
    requires (marker.Some? ==> marker.value + 4 <= |line|) && !Documented(trimmed)
    ensures SegmentAt(line, trimmed, marker).None?
       <==> Ignored(trimmed) || marker.None? || CleanLabel(line[marker.value + 4..]) == ""
  {
  }

  // ---------- The lines of a drawing ----------

  /** The segments of a drawing, in its order. */
  function ChildSegments(children: seq<Tree>, indent: nat): seq<Segment>
    decreases children
  {
    if children == [] then []
    else
      [Segment(indent, children[0].name)] + ChildSegments(children[0].children, indent + 1)
      + ChildSegments(children[1..], indent)
  }

  /** `wanted` is `Documented`, which the proofs need not look into. */
  function TreeSegments(wanted: string -> bool, root: Tree): seq<Segment> {
    var below := ChildSegments(root.children, 1);
    if wanted(root.name) then [Segment(0, root.name)] + below else below
  }

  function ForestSegments(wanted: string -> bool, roots: seq<Tree>): seq<Segment> {
    if roots == [] then [] else TreeSegments(wanted, roots[0]) + ForestSegments(wanted, roots[1..])
  }

  ghost predicate IsDocumented(wanted: string -> bool) {
    forall path {:trigger Documented(path)} :: wanted(path) == Documented(path)
  }

  lemma {:induction false} ParseConcat(parse: string -> Option<Segment>, a: seq<string>, b: seq<string>)
    ensures ParseAll(parse, a + b) == ParseAll(parse, a) + ParseAll(parse, b)
  {
    if a == [] {
      assert a + b == b;
    } else {
      assert (a + b)[1..] == a[1..] + b;
      ParseConcat(parse, a[1..], b);
    }
  }

  predicate Reads(parse: string -> Option<Segment>, lines: seq<string>, segments: seq<Segment>) {
    ParseAll(parse, lines) == segments
  }

  lemma {:induction false} ReadsOne(parse: string -> Option<Segment>, line: string, s: Segment)
    requires ParsesAs(parse, line, s) == true
    ensures Reads(parse, [line], [s]) == true
  {
    assert [line][1..] == [] && [line][0] == line;
    assert ParseAll(parse, [line]) == [s] + ParseAll(parse, []);
  }

  lemma {:induction false} ReadsBoth(
    parse: string -> Option<Segment>, a: seq<string>, b: seq<string>, x: seq<Segment>, y: seq<Segment>)
    requires Reads(parse, a, x) == true && Reads(parse, b, y) == true
    ensures Reads(parse, a + b, x + y) == true
  {
    ParseConcat(parse, a, b);
  }

  lemma {:induction false} DeeperColumns(prefix: string, depth: nat, last: bool)
    requires Columns(prefix, depth) == true
    ensures Columns(Deeper(prefix, last), depth + 1) == true
  {
  }

  lemma {:induction false} FirstChildParses(
    parse: string -> Option<Segment>, prefix: string, depth: nat, last: bool, t: Tree)
    requires IsParser(parse) == true && Columns(prefix, depth) == true && GoodTree(t, last)
    ensures ParsesAs(parse, ChildLine(prefix, last, t), Segment(depth + 1, t.name)) == true
    ensures Columns(Deeper(prefix, last), depth + 1) == true
  {
    DeeperColumns(prefix, depth, last);
    LabelCleans(t);
    ChildLineParses(parse, prefix, depth, last, Label(t), t.name);
  }

  lemma {:induction false} FirstIsGood(trees: seq<Tree>)
    requires AllGood(trees) && trees != []
    ensures GoodTree(trees[0], |trees| == 1) && AllGood(trees[0].children) == true && AllGood(trees[1..]) == true
  {
  }

  lemma {:induction false} ChildrenParse(
    parse: string -> Option<Segment>, children: seq<Tree>, prefix: string, depth: nat)
    requires IsParser(parse) == true && Columns(prefix, depth) == true && AllGood(children) == true
    ensures Reads(parse, PrintChildren(children, prefix), ChildSegments(children, depth + 1)) == true
    decreases children
  {
    if children != [] {
      var t, rest, last := children[0], children[1..], |children| == 1;
      FirstIsGood(children);
      FirstChildParses(parse, prefix, depth, last, t);
      ChildrenParse(parse, t.children, Deeper(prefix, last), depth + 1);
      ChildrenParse(parse, rest, prefix, depth);
      var line, s := ChildLine(prefix, last, t), Segment(depth + 1, t.name);
      var below, beside := PrintChildren(t.children, Deeper(prefix, last)), PrintChildren(rest, prefix);
      ReadsOne(parse, line, s);
      ReadsBoth(parse, [line], below, [s], ChildSegments(t.children, depth + 2));
      ReadsBoth(parse, [line] + below, beside,
                [s] + ChildSegments(t.children, depth + 2), ChildSegments(rest, depth + 1));
    }
  }

  lemma {:induction false} RootParses(parse: string -> Option<Segment>, wanted: string -> bool, t: Tree)
    requires IsParser(parse) == true && IsDocumented(wanted) == true && GoodRoot(t)
    ensures wanted(t.name) ==> ParsesAs(parse, Label(t), Segment(0, t.name)) == true
    ensures !wanted(t.name) ==> parse(Label(t)).None?
    ensures AllGood(t.children) == true
  {
    assert wanted(t.name) == Documented(t.name);
    if Documented(t.name) {
      RootLineExactly(t);
    } else {
      OtherRootLineExactly(t);
    }
    assert parse(Label(t)) == ParseLine(Label(t));
  }

  lemma {:induction false} TreeParses(parse: string -> Option<Segment>, wanted: string -> bool, t: Tree)
    requires IsParser(parse) == true && AllGood(t.children) == true
    requires wanted(t.name) ==> ParsesAs(parse, Label(t), Segment(0, t.name)) == true
    requires !wanted(t.name) ==> parse(Label(t)).None?
    ensures Reads(parse, PrintTree(t), TreeSegments(wanted, t)) == true
  {
    ChildrenParse(parse, t.children, "", 0);
    if wanted(t.name) {
      ReadsOne(parse, Label(t), Segment(0, t.name));
      ReadsBoth(parse, [Label(t)], PrintChildren(t.children, ""), [Segment(0, t.name)], ChildSegments(t.children, 1));
    } else {
      assert PrintTree(t)[1..] == PrintChildren(t.children, "");
    }
  }

  lemma {:induction false} ForestParses(parse: string -> Option<Segment>, wanted: string -> bool, roots: seq<Tree>)
    requires IsParser(parse) == true && IsDocumented(wanted) == true && AllGoodRoots(roots) == true
    ensures Reads(parse, PrintForest(roots), ForestSegments(wanted, roots)) == true
  {
    if roots != [] {
      RootParses(parse, wanted, roots[0]);
      assert AllGoodRoots(roots[1..]);
      TreeParses(parse, wanted, roots[0]);
      ForestParses(parse, wanted, roots[1..]);
      ReadsBoth(parse, PrintTree(roots[0]), PrintForest(roots[1..]),
                TreeSegments(wanted, roots[0]), ForestSegments(wanted, roots[1..]));
    }
  }

  // ---------- The stack over a drawing ----------

  lemma {:induction false} PopPop(stack: seq<Segment>, high: nat, low: nat)
    requires low <= high
    ensures Pop(Pop(stack, high), low) == Pop(stack, low)
  {
    if stack != [] && stack[|stack| - 1].indent >= high {
      PopPop(stack[..|stack| - 1], high, low);
    }
  }

  function StackPath(stack: seq<Segment>): Option<string> {
    if stack == [] then None else Some(Join(stack))
  }

  lemma {:induction false} JoinPush(stack: seq<Segment>, s: Segment)
    ensures Join(stack + [s]) == Under(StackPath(stack), s.text)
  {
    if stack != [] {
      assert (stack + [s])[..|stack|] == stack;
    }
  }

  predicate Rests(stack: seq<Segment>, indent: nat, base: seq<Segment>) {
    Pop(stack, indent) == base
  }

  function Only(wanted: string -> bool, paths: set<string>): set<string> {
    set p | p in paths && wanted(p)
  }

  lemma {:induction false} PushSegment(
    wanted: string -> bool, stack: seq<Segment>, s: Segment, base: seq<Segment>, more: seq<Segment>, here: string)
    requires Rests(stack, s.indent, base) == true && here == Under(StackPath(base), s.text)
    ensures PathsOf(wanted, stack, [s] + more) == Only(wanted, {here}) + PathsOf(wanted, base + [s], more)
    ensures StackPath(base + [s]) == Some(here)
    ensures Rests(base + [s], s.indent + 1, base + [s]) == true
  {
    JoinPush(base, s);
    assert ([s] + more)[1..] == more;
  }

  lemma {:induction false} RestsLower(stack: seq<Segment>, s: Segment, base: seq<Segment>, inner: seq<Segment>)
    requires Rests(stack, s.indent, base) == true && Rests(inner, s.indent + 1, base + [s]) == true
    ensures Rests(inner, s.indent, base) == true
  {
    PopPop(inner, s.indent + 1, s.indent);
    assert (base + [s])[..|base|] == base;
    PopPop(stack, s.indent, s.indent);
  }

  lemma {:induction false} Regroup(s: Segment, below: seq<Segment>, beside: seq<Segment>, more: seq<Segment>)
    ensures ([s] + below + beside) + more == [s] + (below + (beside + more))
  {
  }

  lemma {:induction false} OnlyAssembles(
    wanted: string -> bool, all: set<string>, here: string, tail: set<string>, below: set<string>,
    later: set<string>, beside: set<string>, more: set<string>)
    requires all == Only(wanted, {here}) + tail && tail == Only(wanted, below) + later
    requires later == Only(wanted, beside) + more
    ensures all == Only(wanted, {here} + below + beside) + more
  {
  }

  /** Reading the children of the node on top of `base`, or of none, adds their paths, and leaves a
      stack that differs from the one before only above that node. */
  lemma {:induction false} ChildrenWalk(
    wanted: string -> bool, children: seq<Tree>, indent: nat, stack: seq<Segment>, base: seq<Segment>,
    more: seq<Segment>)
    returns (after: seq<Segment>)
    requires Rests(stack, indent, base) == true
    ensures PathsOf(wanted, stack, ChildSegments(children, indent) + more)
         == Only(wanted, PathsBelow(StackPath(base), children)) + PathsOf(wanted, after, more)
    ensures Rests(after, indent, base) == true
    decreases children
  {
    if children == [] {
      after := stack;
      assert ChildSegments(children, indent) + more == more;
    } else {
      var t, rest := children[0], children[1..];
      var s, here := Segment(indent, t.name), Under(StackPath(base), t.name);
      var below, beside := ChildSegments(t.children, indent + 1), ChildSegments(rest, indent);
      Regroup(s, below, beside, more);
      PushSegment(wanted, stack, s, base, below + (beside + more), here);
      var inner := ChildrenWalk(wanted, t.children, indent + 1, base + [s], base + [s], beside + more);
      RestsLower(stack, s, base, inner);
      after := ChildrenWalk(wanted, rest, indent, inner, base, more);
      OnlyAssembles(
        wanted, PathsOf(wanted, stack, ChildSegments(children, indent) + more), here,
        PathsOf(wanted, base + [s], below + (beside + more)), PathsBelow(Some(here), t.children),
        PathsOf(wanted, inner, beside + more), PathsBelow(StackPath(base), rest), PathsOf(wanted, after, more));
    }
  }

  /** What a forest is filed as: a documented root as itself, the trees below any other root as if they
      stood below the documented root before it, or were roots if there is none. */
  function Filed(wanted: string -> bool, path: Option<string>, roots: seq<Tree>): set<string>
    decreases |roots|
  {
    if roots == [] then {}
    else
      var t := roots[0];
      if wanted(t.name) then TreeAndBelow(t) + Filed(wanted, Some(t.name), roots[1..])
      else PathsBelow(path, t.children) + Filed(wanted, path, roots[1..])
  }

  lemma {:induction false} ForestWalk(
    wanted: string -> bool, roots: seq<Tree>, stack: seq<Segment>, base: seq<Segment>)
    requires Rests(stack, 1, base) == true
    ensures PathsOf(wanted, stack, ForestSegments(wanted, roots)) == Only(wanted, Filed(wanted, StackPath(base), roots))
  {
    if roots != [] {
      var t, rest := roots[0], roots[1..];
      var below, beside := ChildSegments(t.children, 1), ForestSegments(wanted, rest);
      if wanted(t.name) {
        var s := Segment(0, t.name);
        PushRoot(wanted, stack, s, below, beside);
        var inner := ChildrenWalk(wanted, t.children, 1, [s], [s], beside);
        ForestWalk(wanted, rest, inner, [s]);
      } else {
        var inner := ChildrenWalk(wanted, t.children, 1, stack, base, beside);
        ForestWalk(wanted, rest, inner, base);
      }
    }
  }

  lemma {:induction false} PushRoot(
    wanted: string -> bool, stack: seq<Segment>, s: Segment, below: seq<Segment>, beside: seq<Segment>)
    requires s.indent == 0
    ensures PathsOf(wanted, stack, [s] + below + beside)
         == Only(wanted, {s.text}) + PathsOf(wanted, [s], below + beside)
    ensures Rests([s], 1, [s]) == true && StackPath([s]) == Some(s.text)
  {
    PopAll(stack);
    assert Push(stack, s) == [s];
    assert ([s] + below + beside)[1..] == below + beside;
  }

  lemma {:induction false} PopAll(stack: seq<Segment>)
    ensures Pop(stack, 0) == []
  {
    if stack != [] {
      PopAll(stack[..|stack| - 1]);
    }
  }

  // ---------- The lines of a drawing, again as one text ----------

  ghost predicate AllOneLine(lines: seq<string>) {
    forall i :: 0 <= i < |lines| ==> OneLine(lines[i])
  }

  lemma {:induction false} OneLines(line: string, below: seq<string>, beside: seq<string>)
    requires OneLine(line) && AllOneLine(below) && AllOneLine(beside)
    ensures AllOneLine([line] + below + beside) == true
  {
  }

  lemma {:induction false} ChildLineIsOne(prefix: string, depth: nat, last: bool, t: Tree)
    requires Columns(prefix, depth) == true && OneLine(Label(t))
    ensures OneLine(ChildLine(prefix, last, t))
  {
    var line, marker := ChildLine(prefix, last, t), if last then CORNER else BRANCH;
    forall i | 0 <= i < |line| ensures !IsLineBreak(line[i]) {
      assert i < |prefix| ==> line[i] == prefix[i];
      assert |prefix| <= i < |prefix| + 4 ==> line[i] == marker[i - |prefix|];
      assert |prefix| + 4 <= i ==> line[i] == Label(t)[i - |prefix| - 4];
    }
  }

  lemma {:induction false} ChildrenAreLines(children: seq<Tree>, prefix: string, depth: nat)
    requires Columns(prefix, depth) == true && AllGood(children) == true
    ensures AllOneLine(PrintChildren(children, prefix)) == true
    decreases children
  {
    if children != [] {
      var t, rest, last := children[0], children[1..], |children| == 1;
      FirstIsGood(children);
      DeeperColumns(prefix, depth, last);
      ChildLineIsOne(prefix, depth, last, t);
      ChildrenAreLines(t.children, Deeper(prefix, last), depth + 1);
      ChildrenAreLines(rest, prefix, depth);
      OneLines(ChildLine(prefix, last, t), PrintChildren(t.children, Deeper(prefix, last)),
               PrintChildren(rest, prefix));
    }
  }

  lemma {:induction false} ForestIsLines(roots: seq<Tree>)
    requires AllGoodRoots(roots)
    ensures AllOneLine(PrintForest(roots)) == true
  {
    if roots != [] {
      assert GoodRoot(roots[0]) && AllGoodRoots(roots[1..]);
      ChildrenAreLines(roots[0].children, "", 0);
      ForestIsLines(roots[1..]);
      OneLines(Label(roots[0]), PrintChildren(roots[0].children, ""), PrintForest(roots[1..]));
    }
  }

  lemma {:induction false} ForestReadsBack(roots: seq<Tree>)
    requires AllGoodRoots(roots)
    ensures PathsOf(Documented, [], ParseAll(ParseLine, SplitLines(Draw(roots))))
         == Only(Documented, Filed(Documented, None, roots))
  {
    ForestIsLines(roots);
    SplitJoined(PrintForest(roots));
    ForestParses(ParseLine, Documented, roots);
    ForestWalk(Documented, roots, [], []);
  }

  // ---------- Which paths those are ----------

  /** `names` leads from one of the trees down to a node. */
  predicate Leads(trees: seq<Tree>, names: seq<string>)
    decreases |names|
  {
    names != [] && exists i :: 0 <= i < |trees| && LeadsFrom(trees[i], names)
  }

  predicate LeadsFrom(t: Tree, names: seq<string>)
    requires names != []
    decreases |names|, 0
  {
    t.name == names[0] && (|names| == 1 || Leads(t.children, names[1..]))
  }

  function JoinNames(names: seq<string>): string
    requires names != []
  {
    if |names| == 1 then names[0] else names[0] + "/" + JoinNames(names[1..])
  }

  lemma {:induction false} JoinNext(path: Option<string>, name: string, names: seq<string>)
    requires names != []
    ensures Under(path, JoinNames([name] + names)) == Under(path, name) + "/" + JoinNames(names)
  {
    assert ([name] + names)[1..] == names;
  }

  lemma {:induction false} PathHasNames(path: Option<string>, trees: seq<Tree>, p: string) returns (names: seq<string>)
    requires p in PathsBelow(path, trees)
    ensures Leads(trees, names) && p == Under(path, JoinNames(names))
    decreases trees
  {
    var t, rest := trees[0], trees[1..];
    var here := Under(path, t.name);
    if p == here {
      names := [t.name];
      assert LeadsFrom(trees[0], names);
    } else if p in PathsBelow(Some(here), t.children) {
      var below := PathHasNames(Some(here), t.children, p);
      names := [t.name] + below;
      JoinNext(path, t.name, below);
      assert names[1..] == below;
      assert LeadsFrom(trees[0], names);
    } else {
      names := PathHasNames(path, rest, p);
      var i :| 0 <= i < |rest| && LeadsFrom(rest[i], names);
      assert rest[i] == trees[i + 1];
    }
  }

  lemma {:induction false} NamesGivePath(path: Option<string>, trees: seq<Tree>, names: seq<string>)
    requires Leads(trees, names)
    ensures Under(path, JoinNames(names)) in PathsBelow(path, trees)
    decreases trees
  {
    var i :| 0 <= i < |trees| && LeadsFrom(trees[i], names);
    var t, rest := trees[0], trees[1..];
    if i > 0 {
      assert rest[i - 1] == trees[i];
      NamesGivePath(path, rest, names);
    } else if |names| > 1 {
      NamesGivePath(Some(Under(path, t.name)), t.children, names[1..]);
      JoinNext(path, t.name, names[1..]);
      assert [t.name] + names[1..] == names;
    }
  }

  /** The paths below `path` are the names on the way down to a node, joined to it. */
  lemma {:induction false} PathsBelowAre(path: Option<string>, trees: seq<Tree>, p: string)
    ensures p in PathsBelow(path, trees) <==> exists names :: Leads(trees, names) && p == Under(path, JoinNames(names))
  {
    if p in PathsBelow(path, trees) {
      var names := PathHasNames(path, trees, p);
    }
    forall names | Leads(trees, names) ensures Under(path, JoinNames(names)) in PathsBelow(path, trees) {
      NamesGivePath(path, trees, names);
    }
  }

  /** The documented root before tree `i`. */
  function PathBefore(wanted: string -> bool, path: Option<string>, roots: seq<Tree>, i: nat): Option<string>
    requires i <= |roots|
    decreases i
  {
    if i == 0 then path
    else PathBefore(wanted, if wanted(roots[0].name) then Some(roots[0].name) else path, roots[1..], i - 1)
  }

  /** `p` is a path of a documented root or of a node below it. */
  predicate Proper(wanted: string -> bool, roots: seq<Tree>, p: string) {
    exists i :: 0 <= i < |roots| && wanted(roots[i].name) && p in TreeAndBelow(roots[i])
  }

  /** `p` is what a node below the undocumented root `i` is filed as. */
  predicate Stray(wanted: string -> bool, path: Option<string>, roots: seq<Tree>, i: nat, p: string) {
    i < |roots| && !wanted(roots[i].name) && p in PathsBelow(PathBefore(wanted, path, roots, i), roots[i].children)
  }

  ghost predicate SomeStray(wanted: string -> bool, path: Option<string>, roots: seq<Tree>, p: string) {
    exists i: nat :: Stray(wanted, path, roots, i, p)
  }

  lemma {:induction false} FirstProper(wanted: string -> bool, roots: seq<Tree>, p: string)
    requires roots != []
    ensures Proper(wanted, roots, p)
       <==> (wanted(roots[0].name) && p in TreeAndBelow(roots[0])) || Proper(wanted, roots[1..], p)
  {
    var rest := roots[1..];
    if i :| 0 <= i < |roots| && wanted(roots[i].name) && p in TreeAndBelow(roots[i]) {
      assert i > 0 ==> rest[i - 1] == roots[i];
    }
    if i :| 0 <= i < |rest| && wanted(rest[i].name) && p in TreeAndBelow(rest[i]) {
      assert roots[i + 1] == rest[i];
    }
  }

  lemma {:induction false} FirstStray(
    wanted: string -> bool, path: Option<string>, next: Option<string>, roots: seq<Tree>, p: string)
    requires roots != [] && next == (if wanted(roots[0].name) then Some(roots[0].name) else path)
    ensures SomeStray(wanted, path, roots, p)
       <==> || (!wanted(roots[0].name) && p in PathsBelow(path, roots[0].children))
            || SomeStray(wanted, next, roots[1..], p)
  {
    var rest := roots[1..];
    if i: nat :| Stray(wanted, path, roots, i, p) {
      assert i > 0 ==> Stray(wanted, next, rest, i - 1, p);
    }
    if i: nat :| Stray(wanted, next, rest, i, p) {
      assert Stray(wanted, path, roots, i + 1, p);
    }
    if !wanted(roots[0].name) && p in PathsBelow(path, roots[0].children) {
      assert Stray(wanted, path, roots, 0, p);
    }
  }

  lemma {:induction false} FiledAre(wanted: string -> bool, path: Option<string>, roots: seq<Tree>, p: string)
    ensures p in Filed(wanted, path, roots) <==> Proper(wanted, roots, p) || SomeStray(wanted, path, roots, p)
    decreases |roots|
  {
    if roots != [] {
      var next := if wanted(roots[0].name) then Some(roots[0].name) else path;
      FirstProper(wanted, roots, p);
      FirstStray(wanted, path, next, roots, p);
      FiledAre(wanted, next, roots[1..], p);
    }
  }

  ghost predicate Inherited(wanted: string -> bool) {
    forall path, more :: wanted(path) ==> wanted(path + more)
  }

  lemma {:induction false} DocumentedIsInherited()
    ensures Inherited(Documented) == true
  {
  }

  lemma {:induction false} ProperIsWanted(wanted: string -> bool, roots: seq<Tree>, p: string)
    requires Inherited(wanted) == true && Proper(wanted, roots, p)
    ensures wanted(p)
  {
    var i :| 0 <= i < |roots| && wanted(roots[i].name) && p in TreeAndBelow(roots[i]);
    if p != roots[i].name {
      var names := PathHasNames(Some(roots[i].name), roots[i].children, p);
      assert wanted(roots[i].name + "/");
      assert wanted((roots[i].name + "/") + JoinNames(names));
    }
  }

  lemma {:induction false} ProperIsDocumented(roots: seq<Tree>, p: string)
    requires Proper(Documented, roots, p)
    ensures Documented(p)
  {
    DocumentedIsInherited();
    ProperIsWanted(Documented, roots, p);
  }

  /** For every forest: exactly the paths of the documented roots and of the nodes below them are found,
      and those documented paths as which the nodes below undocumented roots are filed. */
  lemma {:induction false} FoundExactly(roots: seq<Tree>, p: string)
    requires AllGoodRoots(roots)
    ensures Finds(Draw(roots), p)
       <==> Proper(Documented, roots, p) || (Documented(p) && SomeStray(Documented, None, roots, p))
  {
    ForestReadsBack(roots);
    FiledAre(Documented, None, roots, p);
    if Proper(Documented, roots, p) {
      ProperIsDocumented(roots, p);
    }
  }

  /** So the reader is right about a forest exactly when what is filed wrongly is there anyway. */
  lemma {:induction false} ReadRightExactly(roots: seq<Tree>)
    requires AllGoodRoots(roots)
    ensures (forall p :: Finds(Draw(roots), p) <==> Proper(Documented, roots, p))
       <==> (forall i: nat, p :: Stray(Documented, None, roots, i, p) && Documented(p) ==> Proper(Documented, roots, p))
  {
    forall p ensures Finds(Draw(roots), p)
                <==> Proper(Documented, roots, p) || (Documented(p) && SomeStray(Documented, None, roots, p))
    {
      FoundExactly(roots, p);
    }
    if forall p :: Finds(Draw(roots), p) <==> Proper(Documented, roots, p) {
      forall i: nat, p | Stray(Documented, None, roots, i, p) && Documented(p) ensures Proper(Documented, roots, p) {
        assert Finds(Draw(roots), p);
      }
    }
  }

  /** A forest of documented roots only has no strays: what is found in its drawing is exactly the joined
      names on the way from a root to a node. */
  lemma {:induction false} RoundTrip(roots: seq<Tree>, p: string)
    requires AllGoodRoots(roots)
    requires forall i :: 0 <= i < |roots| ==> "src/notebooklm" <= roots[i].name || "tests" <= roots[i].name
    ensures Finds(Draw(roots), p) <==> exists names :: Leads(roots, names) && p == JoinNames(names)
  {
    assert forall i :: 0 <= i < |roots| ==> Documented(roots[i].name);
    FoundExactly(roots, p);
    PathsBelowAre(None, roots, p);
    ProperBelow(Documented, roots, p);
  }

  lemma {:induction false} ProperBelow(wanted: string -> bool, roots: seq<Tree>, p: string)
    requires forall i :: 0 <= i < |roots| ==> wanted(roots[i].name)
    ensures Proper(wanted, roots, p) <==> p in PathsBelow(None, roots)
  {
    if roots != [] {
      FirstProper(wanted, roots, p);
      ProperBelow(wanted, roots[1..], p);
    }
  }

  /** A child of an undocumented root is filed below the documented root before it, or as a root of its
      own if there is none and its name will do. */
  lemma {:induction false} UndocumentedRootLeaks(roots: seq<Tree>, i: nat, j: nat, p: string)
    requires AllGoodRoots(roots) && i < |roots| && !Documented(roots[i].name) && j < |roots[i].children|
    requires p == Under(PathBefore(Documented, None, roots, i), roots[i].children[j].name)
    ensures Finds(Draw(roots), p) <==> Documented(p)
  {
    var t := roots[i].children[j];
    assert LeadsFrom(roots[i].children[j], [t.name]) && Leads(roots[i].children, [t.name]);
    NamesGivePath(PathBefore(Documented, None, roots, i), roots[i].children, [t.name]);
    assert Stray(Documented, None, roots, i, p);
    FoundExactly(roots, p);
    if Finds(Draw(roots), p) && Proper(Documented, roots, p) {
      ProperIsDocumented(roots, p);
    }
  }
}
