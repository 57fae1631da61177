/** The Python string operations that several models need. */
module PyText {
  import opened Options

  /** Python's `str.isspace`, which is also `\s`. */
  predicate IsSpace(c: char) {
    || '\t' <= c <= '\r' || '\U{1c}' <= c <= ' ' || c == '\U{85}' || c == '\U{a0}' || c == '\U{1680}'
    || '\U{2000}' <= c <= '\U{200a}' || c == '\U{2028}' || c == '\U{2029}' || c == '\U{202f}'
    || c == '\U{205f}' || c == '\U{3000}'
  }

  function LStrip(s: string): string {
    if s != "" && IsSpace(s[0]) then LStrip(s[1..]) else s
  }

  function RStrip(s: string): string {
    if s != "" && IsSpace(s[|s| - 1]) then RStrip(s[..|s| - 1]) else s
  }

  function Strip(s: string): string {
    RStrip(LStrip(s))
  }

  predicate StartsWith(s: string, prefix: string) {
    prefix <= s
  }

  /** Python's `s[:n]`. */
  function Take(s: string, n: int): (r: string)
    ensures r <= s
    ensures |r| == if n >= |s| then |s| else if n >= 0 then n else if |s| + n >= 0 then |s| + n else 0
  {
    if n < 0 then (if |s| + n < 0 then "" else s[..|s| + n])
    else if n <= |s| then s[..n]
    else s
  }

  /** `s.rstrip(c)` */
  function RStripChar(s: string, c: char): string {
    if s != "" && s[|s| - 1] == c then RStripChar(s[..|s| - 1], c) else s
  }

  /** The first place where `part` occurs in `s`, from `i` on: `s.find(part, i)`. */
  function FindFrom(s: string, part: string, i: nat): (at: Option<nat>)
    requires i <= |s|
    ensures at.Some? ==> i <= at.value && at.value + |part| <= |s| && s[at.value..at.value + |part|] == part
    decreases |s| - i
  {
    if i + |part| <= |s| && s[i..i + |part|] == part then Some(i)
    else if i == |s| then None
    else FindFrom(s, part, i + 1)
  }

  function Find(s: string, part: string): Option<nat> {
    FindFrom(s, part, 0)
  }

  /** The first place is `at` if character `o` of `part` is nowhere early enough for another. */
  lemma {:induction false} FindIs(s: string, part: string, o: nat, i: nat, at: nat)
    requires i <= at && o < |part| && at + |part| <= |s| && s[at..at + |part|] == part
    requires forall k :: i + o <= k < at + o ==> s[k] != part[o]
    ensures FindFrom(s, part, i) == Some(at)
    decreases |s| - i
  {
    if i < at {
      if i + |part| <= |s| {
        assert s[i..i + |part|][o] == s[i + o];
      }
      FindIs(s, part, o, i + 1, at);
    }
  }

  /** There is none without that character. */
  lemma {:induction false} FindNone(s: string, part: string, o: nat, i: nat)
    requires i <= |s| && o < |part| && forall k :: i + o <= k < |s| ==> s[k] != part[o]
    ensures FindFrom(s, part, i).None?
    decreases |s| - i
  {
    if i + |part| <= |s| {
      assert s[i..i + |part|][o] == s[i + o];
    }
    if i < |s| {
      FindNone(s, part, o, i + 1);
    }
  }

  /** The first place is `at` if no earlier place fits the first two characters of `part`. */
  lemma {:induction false} FindIsPair(s: string, part: string, i: nat, at: nat)
    requires i <= at && 2 <= |part| && at + |part| <= |s| && s[at..at + |part|] == part
    requires forall k :: i <= k < at ==> s[k] != part[0] || s[k + 1] != part[1]
    ensures FindFrom(s, part, i) == Some(at)
    decreases |s| - i
  {
    if i < at {
      assert s[i..i + |part|][0] == s[i] && s[i..i + |part|][1] == s[i + 1];
      FindIsPair(s, part, i + 1, at);
    }
  }

  lemma {:induction false} FindNoPair(s: string, part: string, i: nat)
    requires i <= |s| && 2 <= |part|
    requires forall k :: i <= k && k + |part| <= |s| ==> s[k] != part[0] || s[k + 1] != part[1]
    ensures FindFrom(s, part, i).None?
    decreases |s| - i
  {
    if i + |part| <= |s| {
      assert s[i..i + |part|][0] == s[i] && s[i..i + |part|][1] == s[i + 1];
    }
    if i < |s| {
      FindNoPair(s, part, i + 1);
    }
  }

  predicate AllSpace(s: string) {
    forall i :: 0 <= i < |s| ==> IsSpace(s[i])
  }

  /** Text that `strip` would leave alone. */
  predicate Trimmed(s: string) {
    s != "" && !IsSpace(s[0]) && !IsSpace(s[|s| - 1])
  }

  lemma {:induction false} RStripPadding(s: string, padding: string)
    requires AllSpace(padding) && Trimmed(s)
    ensures RStrip(s + padding) == s
  {
    if padding == "" {
      assert s + padding == s;
    } else {
      var longer := s + padding;
      assert longer[|longer| - 1] == padding[|padding| - 1];
      assert longer[..|longer| - 1] == s + padding[..|padding| - 1];
      RStripPadding(s, padding[..|padding| - 1]);
    }
  }

  lemma {:induction false} StripPadding(before: string, s: string, after: string)
    requires AllSpace(before) && AllSpace(after) && Trimmed(s)
    ensures Strip(before + s + after) == s
  {
    if before == "" {
      assert before + s + after == s + after;
      assert (s + after)[0] == s[0];
      RStripPadding(s, after);
    } else {
      var whole := before + s + after;
      assert whole[0] == before[0];
      assert whole[1..] == before[1..] + s + after;
      StripPadding(before[1..], s, after);
    }
  }

  /** Nothing starts in a stretch without the first character. */
  lemma {:induction false} FindSkips(s: string, part: string, i: nat, j: nat)
    requires i <= j <= |s| && part != "" && forall k :: i <= k < j ==> s[k] != part[0]
    ensures FindFrom(s, part, i) == FindFrom(s, part, j)
    decreases j - i
  {
    if i < j {
      if i + |part| <= |s| {
        assert s[i..i + |part|][0] == s[i];
      }
      FindSkips(s, part, i + 1, j);
    }
  }

  lemma {:induction false} SliceOfSuffix(whole: string, before: string, s: string, i: nat, n: nat)
    requires whole == before + s && i + n <= |s|
    ensures whole[|before| + i..|before| + i + n] == s[i..i + n]
  {
  }

  lemma {:induction false} FindInSuffix(whole: string, before: string, s: string, part: string, i: nat, j: nat)
    requires whole == before + s && i <= |s| && j == |before| + i
    ensures FindFrom(whole, part, j).None? <==> FindFrom(s, part, i).None?
    ensures FindFrom(s, part, i).Some? ==> FindFrom(whole, part, j).value == |before| + FindFrom(s, part, i).value
    decreases |s| - i
  {
    if i + |part| <= |s| {
      SliceOfSuffix(whole, before, s, i, |part|);
    }
    if i < |s| {
      FindInSuffix(whole, before, s, part, i + 1, j + 1);
    }
  }

  /** What `rstrip` takes off. */
  lemma {:induction false} RStripSplits(s: string) returns (tail: string)
    ensures s == RStrip(s) + tail && AllSpace(tail)
    ensures RStrip(s) != "" ==> !IsSpace(RStrip(s)[|RStrip(s)| - 1])
    ensures RStrip(s) == "" <==> AllSpace(s)
  {
    if s != "" && IsSpace(s[|s| - 1]) {
      var last := |s| - 1;
      var shorter := RStripSplits(s[..last]);
      tail := shorter + [s[last]];
      assert s == s[..last] + [s[last]];
      assert AllSpace(s) ==> AllSpace(s[..last]);
      assert AllSpace(s[..last]) ==> AllSpace(s);
    } else {
      tail := "";
    }
  }

  // ---------- Lines ----------

  /** Where `str.splitlines` breaks. */
  predicate IsLineBreak(c: char) {
    || '\n' <= c <= '\r' || '\U{1c}' <= c <= '\U{1e}' || c == '\U{85}' || c == '\U{2028}' || c == '\U{2029}'
  }

  predicate OneLine(s: string) {
    forall i :: 0 <= i < |s| ==> !IsLineBreak(s[i])
  }

  function LineLength(s: string): (n: nat)
    ensures n <= |s| && OneLine(s[..n]) && (n < |s| ==> IsLineBreak(s[n]))
  {
    if s == "" || IsLineBreak(s[0]) then 0
    else
      var n := 1 + LineLength(s[1..]);
      assert s[..n] == [s[0]] + s[1..][..n - 1];
      n
  }

  /** `str.splitlines`, for which a carriage return and a line feed are one break. */
  function SplitLines(s: string): seq<string>
    decreases |s|
  {
    if s == "" then []
    else
      var n := LineLength(s);
      if n == |s| then [s]
      else [s[..n]] + SplitLines(s[if s[n] == '\r' && n + 1 < |s| && s[n + 1] == '\n' then n + 2 else n + 1..])
  }

  function JoinLines(lines: seq<string>): string {
    if lines == [] then "" else lines[0] + "\n" + JoinLines(lines[1..])
  }

  lemma {:induction false} LineLengthIs(s: string, n: nat)
    requires n < |s| && OneLine(s[..n]) && IsLineBreak(s[n])
    ensures LineLength(s) == n
  {
    if n > 0 {
      assert s[0] == s[..n][0] && s[1..][..n - 1] == s[..n][1..];
      LineLengthIs(s[1..], n - 1);
    }
  }

  lemma {:induction false} SplitJoined(lines: seq<string>)
    requires forall i :: 0 <= i < |lines| ==> OneLine(lines[i])
    ensures SplitLines(JoinLines(lines)) == lines
  {
    if lines != [] {
      var first, rest := lines[0], JoinLines(lines[1..]);
      var s := first + "\n" + rest;
      assert s[..|first|] == first && s[|first|] == '\n' && s[|first| + 1..] == rest;
      LineLengthIs(s, |first|);
      SplitJoined(lines[1..]);
    }
  }

  /** A line is what stands before a break; a carriage return with its line feed is one. */
  lemma {:induction false} FirstLine(line: string, end: string, rest: string)
    requires OneLine(line)
    requires || (|end| == 2 && end[0] == '\r' && end[1] == '\n')
             || (|end| == 1 && IsLineBreak(end[0]) && !(end[0] == '\r' && rest != "" && rest[0] == '\n'))
    ensures SplitLines(line + end + rest) == [line] + SplitLines(rest)
  {
    var s := line + end + rest;
    assert s[..|line|] == line && s[|line|] == end[0] && s[|line| + |end|..] == rest;
    assert |end| == 2 ==> s[|line| + 1] == '\n';
    assert |end| == 1 && rest != "" ==> s[|line| + 1] == rest[0];
    LineLengthIs(s, |line|);
  }

  // ---------- Sorting ----------

  /** Python's order of strings, by code points. */
  predicate Less(a: string, b: string) {
    b != "" && (a == "" || a[0] < b[0] || (a[0] == b[0] && Less(a[1..], b[1..])))
  }

  predicate Ascending(s: seq<string>) {
    forall i, j :: 0 <= i < j < |s| ==> Less(s[i], s[j])
  }

  lemma {:induction false} LessIsTransitive(a: string, b: string, c: string)
    requires Less(a, b) && Less(b, c)
    ensures Less(a, c)
  {
    if a != "" && a[0] == b[0] == c[0] {
      LessIsTransitive(a[1..], b[1..], c[1..]);
    }
  }

  lemma {:induction false} LessIsTotal(a: string, b: string)
    ensures a == b || Less(a, b) || Less(b, a)
    ensures Less(a, b) ==> a != b && !Less(b, a)
  {
    if a != "" && b != "" && a[0] == b[0] {
      LessIsTotal(a[1..], b[1..]);
      assert a == [a[0]] + a[1..] && b == [b[0]] + b[1..];
    }
  }

  function Insert(x: string, s: seq<string>): seq<string> {
    if s == [] then [x]
    else if x == s[0] then s
    else if Less(x, s[0]) then [x] + s
    else [s[0]] + Insert(x, s[1..])
  }

  lemma {:induction false} PrependAscending(x: string, s: seq<string>)
    requires Ascending(s) && forall y :: y in s ==> Less(x, y)
    ensures Ascending([x] + s)
  {
  }

  lemma {:induction false} InsertKeepsAscending(x: string, s: seq<string>)
    requires Ascending(s)
    ensures Ascending(Insert(x, s)) && forall y :: y in Insert(x, s) <==> y == x || y in s
  {
    if s != [] && x != s[0] {
      LessIsTotal(x, s[0]);
      var rest := s[1..];
      assert s == [s[0]] + rest;
      if Less(x, s[0]) {
        forall y | y in s ensures Less(x, y) {
          FirstIsLeast(s, y);
          if y != s[0] {
            LessIsTransitive(x, s[0], y);
          }
        }
        PrependAscending(x, s);
      } else {
        InsertKeepsAscending(x, rest);
        forall y | y in Insert(x, rest) ensures Less(s[0], y) {
          assert y in rest ==> Less(s[0], y);
        }
        PrependAscending(s[0], Insert(x, rest));
      }
    } else if s == [] {
      assert Insert(x, s) == [x];
    }
  }

  /** `sorted(set(found))` */
  method SortedSet(found: seq<string>) returns (sorted: seq<string>)
    ensures Ascending(sorted) && forall x :: x in sorted <==> x in found
  {
    sorted := [];
    for i := 0 to |found|
      invariant Ascending(sorted) && forall x :: x in sorted <==> x in found[..i]
    {
      InsertKeepsAscending(found[i], sorted);
      sorted := Insert(found[i], sorted);
      assert found[..i + 1] == found[..i] + [found[i]];
    }
    assert found[..|found|] == found;
  }

  /** There is only one such list. */
  lemma {:induction false} AscendingIsUnique(a: seq<string>, b: seq<string>)
    requires Ascending(a) && Ascending(b) && forall x :: x in a <==> x in b
    ensures a == b
  {
    assert a == [] <==> b == [] by {
      assert a != [] ==> a[0] in a;
      assert b != [] ==> b[0] in b;
    }
    if a != [] {
      FirstIsLeast(a, b[0]);
      FirstIsLeast(b, a[0]);
      assert a[0] in b && b[0] in a;
      LessIsTotal(a[0], b[0]);
      forall x ensures x in a[1..] <==> x in b[1..] {
        RestWithoutFirst(a, x);
        RestWithoutFirst(b, x);
      }
      AscendingIsUnique(a[1..], b[1..]);
      assert a == [a[0]] + a[1..] && b == [b[0]] + b[1..];
    }
  }

  lemma {:induction false} FirstIsLeast(s: seq<string>, x: string)
    requires Ascending(s) && s != [] && x in s
    ensures x == s[0] || Less(s[0], x)
  {
  }

  lemma {:induction false} RestWithoutFirst(s: seq<string>, x: string)
    requires Ascending(s) && s != []
    ensures x in s[1..] <==> x in s && x != s[0]
  {
    assert s == [s[0]] + s[1..];
    LessIsTotal(s[0], x);
  }
}
