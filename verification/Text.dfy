/** The pieces of Go's string handling that the directory documents use. One char stands for one byte, so white space is that of ASCII. */
module Text {
  import opened Prelude

  predicate IsSpace(c: char) {
    c in "\t\n\r " || c == '\U{000B}' || c == '\U{000C}'
  }

  predicate NoSpace(s: string) {
    forall c :: c in s ==> !IsSpace(c)
  }

  function TrimLeft(s: string): string {
    if s != "" && IsSpace(s[0]) then TrimLeft(s[1..]) else s
  }

  function TrimRight(s: string): string {
    if s != "" && IsSpace(s[|s| - 1]) then TrimRight(s[..|s| - 1]) else s
  }

  function TrimSpace(s: string): string {
    TrimRight(TrimLeft(s))
  }

  function TrimCR(s: string): string {
    if s != "" && s[|s| - 1] == '\r' then TrimCR(s[..|s| - 1]) else s
  }

  predicate Tidy(s: string) {
    s != "" && !IsSpace(s[0]) && !IsSpace(s[|s| - 1])
  }

  lemma TidyUntouched(s: string)
    requires s == "" || Tidy(s)
    ensures TrimSpace(s) == s && TrimCR(s) == s
  {
  }

  lemma {:induction false} TrimLeftShape(s: string)
    ensures forall c :: c in TrimLeft(s) ==> c in s
    ensures TrimLeft(s) != "" ==> !IsSpace(TrimLeft(s)[0])
  {
    if s != "" && IsSpace(s[0]) {
      TrimLeftShape(s[1..]);
    }
  }

  lemma {:induction false} TrimRightShape(s: string)
    ensures TrimRight(s) <= s
    ensures TrimRight(s) != "" ==> !IsSpace(TrimRight(s)[|TrimRight(s)| - 1])
  {
    if s != "" && IsSpace(s[|s| - 1]) {
      TrimRightShape(s[..|s| - 1]);
    }
  }

  /** What is left after trimming is empty or tidy, and holds only characters of the original. */
  lemma TrimSpaceShape(s: string)
    ensures TrimSpace(s) == "" || Tidy(TrimSpace(s))
    ensures forall c :: c in TrimSpace(s) ==> c in s
  {
    TrimLeftShape(s);
    TrimRightShape(TrimLeft(s));
  }

  predicate AllSpace(s: string) {
    forall c :: c in s ==> IsSpace(c)
  }

  lemma {:induction false} TrimLeftSpace(before: string, s: string)
    requires AllSpace(before)
    ensures TrimLeft(before + s) == TrimLeft(s)
  {
    if before == "" {
      assert before + s == s;
    } else {
      assert before[0] in before && (before + s)[1..] == before[1..] + s;
      TrimLeftSpace(before[1..], s);
    }
  }

  lemma {:induction false} TrimRightSpace(s: string, after: string)
    requires AllSpace(after)
    ensures TrimRight(s + after) == TrimRight(s)
    decreases |after|
  {
    if after == "" {
      assert s + after == s;
    } else {
      var init := after[..|after| - 1];
      assert after[|after| - 1] in after && (s + after)[..|s + after| - 1] == s + init;
      TrimRightSpace(s, init);
    }
  }

  /** Trimming takes off all white space around a tidy text and nothing of the text. */
  lemma TrimAround(before: string, s: string, after: string)
    requires AllSpace(before) && AllSpace(after) && (s == "" || Tidy(s))
    ensures TrimSpace(before + s + after) == s
  {
    assert before + s + after == before + (s + after);
    TrimLeftSpace(before, s + after);
    TidyUntouched(s);
    if s == "" {
      assert s + after == after && after + "" == after;
      TrimLeftSpace(after, "");
    } else {
      TrimRightSpace(s, after);
    }
  }

  /** strings.Cut at the first occurrence of a character; None when it does not occur. */
  function Cut(s: string, sep: char): (r: Option<(string, string)>)
    ensures r.Some? ==> s == r.value.0 + [sep] + r.value.1 && sep !in r.value.0
    ensures r.None? ==> sep !in s
  {
    if s == "" then None
    else if s[0] == sep then Some(("", s[1..]))
    else
      match Cut(s[1..], sep)
      case None => None
      case Some((before, after)) => Some(([s[0]] + before, after))
  }

  lemma {:induction false} CutAt(a: string, sep: char, b: string)
    requires sep !in a
    ensures Cut(a + [sep] + b, sep) == Some((a, b))
  {
    var s := a + [sep] + b;
    if a == "" {
      assert s[1..] == b;
    } else {
      assert s[1..] == a[1..] + [sep] + b;
      CutAt(a[1..], sep, b);
      assert [s[0]] + a[1..] == a;
    }
  }

  /** strings.Split at newlines. */
  function Split(s: string): (lines: seq<string>)
    ensures |lines| > 0
    ensures forall i :: 0 <= i < |lines| ==> '\n' !in lines[i]
    decreases |s|
  {
    match Cut(s, '\n')
    case None => [s]
    case Some((line, rest)) => [line] + Split(rest)
  }

  lemma SplitLine(line: string, rest: string)
    requires '\n' !in line
    ensures Split(line + "\n" + rest) == [line] + Split(rest)
  {
    CutAt(line, '\n', rest);
  }

  /** Lines, each closed by a newline. */
  function Join(lines: seq<string>): string {
    if lines == [] then "" else lines[0] + "\n" + Join(lines[1..])
  }

  predicate OneLine(s: string) {
    '\n' !in s
  }

  predicate AllOneLine(lines: seq<string>) {
    forall i :: 0 <= i < |lines| ==> OneLine(lines[i])
  }

  lemma {:induction false} JoinAppend(a: seq<string>, b: seq<string>)
    ensures Join(a + b) == Join(a) + Join(b)
  {
    if a == [] {
      assert a + b == b;
    } else {
      assert (a + b)[1..] == a[1..] + b;
      JoinAppend(a[1..], b);
    }
  }

  lemma {:induction false} SplitJoin(lines: seq<string>, rest: string)
    requires AllOneLine(lines)
    ensures Split(Join(lines) + rest) == lines + Split(rest)
  {
    if lines == [] {
      assert Join(lines) + rest == rest;
      assert lines + Split(rest) == Split(rest);
    } else {
      assert Join(lines) + rest == lines[0] + "\n" + (Join(lines[1..]) + rest);
      SplitLine(lines[0], Join(lines[1..]) + rest);
      SplitJoin(lines[1..], rest);
      assert [lines[0]] + (lines[1..] + Split(rest)) == lines + Split(rest);
    }
  }

  /** The lines a bufio.Scanner loop looks at: carriage returns trimmed, empty lines skipped. */
  function Lines(raw: seq<string>): seq<string> {
    if raw == [] then []
    else (if TrimCR(raw[0]) == "" then [] else [TrimCR(raw[0])]) + Lines(raw[1..])
  }

  /** A line the scanner loop sees unchanged. */
  predicate Kept(line: string) {
    line != "" && line[|line| - 1] != '\r'
  }

  lemma {:induction false} KeptLines(lines: seq<string>)
    requires forall i :: 0 <= i < |lines| ==> Kept(lines[i])
    ensures Lines(lines + [""]) == lines
  {
    if lines == [] {
      assert lines + [""] == [""];
    } else {
      assert (lines + [""])[1..] == lines[1..] + [""];
      KeptLines(lines[1..]);
      assert [lines[0]] + lines[1..] == lines;
    }
  }

  /** A text printed line by line is read back as those lines. */
  lemma PrintedLines(lines: seq<string>)
    requires AllOneLine(lines) && forall i :: 0 <= i < |lines| ==> Kept(lines[i])
    ensures Split(Join(lines)) == lines + [""] && Lines(Split(Join(lines))) == lines
  {
    SplitJoin(lines, "");
    assert Join(lines) + "" == Join(lines);
    KeptLines(lines);
  }

  predicate At(s: string, pattern: string, i: int) {
    0 <= i <= |s| - |pattern| && s[i..i + |pattern|] == pattern
  }

  /** strings.Index. */
  function Index(s: string, pattern: string): (r: Option<nat>)
    ensures r.Some? ==> At(s, pattern, r.value)
    ensures forall i :: 0 <= i < (if r.Some? then r.value else |s| + 1) ==> !At(s, pattern, i)
  {
    IndexFrom(s, pattern, 0)
  }

  function IndexFrom(s: string, pattern: string, from: nat): (r: Option<nat>)
    requires from <= |s| + 1
    ensures r.Some? ==> from <= r.value && At(s, pattern, r.value)
    ensures forall i :: from <= i < (if r.Some? then r.value else |s| + 1) ==> !At(s, pattern, i)
    decreases |s| + 1 - from
  {
    if from > |s| then None else if At(s, pattern, from) then Some(from) else IndexFrom(s, pattern, from + 1)
  }

  /** strings.LastIndex. */
  function LastIndex(s: string, pattern: string): (r: Option<nat>)
    ensures r.Some? ==> At(s, pattern, r.value)
    ensures forall i :: (if r.Some? then r.value else -1) < i <= |s| ==> !At(s, pattern, i)
  {
    LastIndexBelow(s, pattern, |s| + 1)
  }

  function LastIndexBelow(s: string, pattern: string, below: nat): (r: Option<nat>)
    requires below <= |s| + 1
    ensures r.Some? ==> r.value < below && At(s, pattern, r.value)
    ensures forall i :: (if r.Some? then r.value else -1) < i < below ==> !At(s, pattern, i)
  {
    if below == 0 then None else if At(s, pattern, below - 1) then Some(below - 1) else LastIndexBelow(s, pattern, below - 1)
  }

  function HasPrefix(s: string, prefix: string): bool {
    prefix <= s
  }

  // ---- byte order

  predicate Less(a: string, b: string) {
    if b == "" then false else if a == "" then true
    else a[0] < b[0] || (a[0] == b[0] && Less(a[1..], b[1..]))
  }

  lemma {:induction false} LessTotal(a: string, b: string)
    ensures a == b || Less(a, b) || Less(b, a)
    ensures !(Less(a, b) && Less(b, a)) && !Less(a, a)
  {
    if a != "" {
      LessTotal(a[1..], a[1..]);
    }
    if a != "" && b != "" && a[0] == b[0] {
      LessTotal(a[1..], b[1..]);
      assert a == [a[0]] + a[1..] && b == [b[0]] + b[1..];
    }
  }

  lemma {:induction false} LessTransitive(a: string, b: string, c: string)
    requires Less(a, b) && Less(b, c)
    ensures Less(a, c)
  {
    if a != "" && a[0] == b[0] == c[0] {
      LessTransitive(a[1..], b[1..], c[1..]);
    }
  }

  function Insert(x: string, xs: seq<string>): seq<string> {
    if xs == [] || !Less(xs[0], x) then [x] + xs else [xs[0]] + Insert(x, xs[1..])
  }

  /** The sorted arrangement of some texts. */
  function Sort(xs: seq<string>): seq<string> {
    if xs == [] then [] else Insert(xs[0], Sort(xs[1..]))
  }

  ghost predicate Sorted(xs: seq<string>) {
    forall i, j :: 0 <= i < j < |xs| ==> !Less(xs[j], xs[i])
  }

  lemma {:induction false} InsertSorted(x: string, xs: seq<string>)
    requires Sorted(xs)
    ensures Sorted(Insert(x, xs)) && multiset(Insert(x, xs)) == multiset{x} + multiset(xs)
  {
    var ys := Insert(x, xs);
    if xs == [] {
    } else if !Less(xs[0], x) {
      forall j | 0 < j < |ys| ensures !Less(ys[j], x) {
        if Less(ys[j], x) && j > 1 {
          LessTotal(xs[0], ys[j]);
          if xs[0] != ys[j] {
            LessTransitive(xs[0], ys[j], x);
          }
        }
      }
    } else {
      InsertSorted(x, xs[1..]);
      assert xs == [xs[0]] + xs[1..];
      LessTotal(x, xs[0]);
      forall j | 0 < j < |ys| ensures !Less(ys[j], xs[0]) {
        assert ys[j] in multiset(Insert(x, xs[1..]));
        assert ys[j] == x || ys[j] in xs[1..];
      }
    }
  }

  lemma {:induction false} SortCorrect(xs: seq<string>)
    ensures Sorted(Sort(xs)) && multiset(Sort(xs)) == multiset(xs) && |Sort(xs)| == |xs|
  {
    if xs != [] {
      SortCorrect(xs[1..]);
      InsertSorted(xs[0], Sort(xs[1..]));
      assert xs == [xs[0]] + xs[1..];
      assert |multiset(Sort(xs))| == |Sort(xs)|;
    }
  }

  lemma SortedHead(xs: seq<string>, ys: seq<string>)
    requires Sorted(xs) && Sorted(ys) && multiset(xs) == multiset(ys) && xs != [] && ys != []
    ensures xs[0] == ys[0]
  {
    assert xs[0] in multiset(ys) && ys[0] in multiset(xs);
    var i :| 0 <= i < |ys| && ys[i] == xs[0];
    var j :| 0 <= j < |xs| && xs[j] == ys[0];
    LessTotal(xs[0], ys[0]);
  }

  /** A multiset of texts has only one sorted arrangement. */
  lemma {:induction false} SortedUnique(xs: seq<string>, ys: seq<string>)
    requires Sorted(xs) && Sorted(ys) && multiset(xs) == multiset(ys)
    ensures xs == ys
    decreases |xs|
  {
    assert |multiset(xs)| == |xs| && |multiset(ys)| == |ys|;
    if xs != [] {
      SortedHead(xs, ys);
      assert xs == [xs[0]] + xs[1..] && ys == [ys[0]] + ys[1..];
      assert multiset(xs[1..]) == multiset(xs) - multiset{xs[0]} == multiset(ys[1..]);
      SortedUnique(xs[1..], ys[1..]);
    }
  }

  lemma SortPermutation(xs: seq<string>, ys: seq<string>)
    requires multiset(xs) == multiset(ys)
    ensures Sort(xs) == Sort(ys)
  {
    SortCorrect(xs);
    SortCorrect(ys);
    SortedUnique(Sort(xs), Sort(ys));
  }

  lemma SortSorted(xs: seq<string>)
    requires Sorted(xs)
    ensures Sort(xs) == xs
  {
    SortCorrect(xs);
    SortedUnique(Sort(xs), xs);
  }

  // ---- repetition

  lemma {:induction false} Twice<T>(s: seq<T>, v: T)
    ensures multiset(s)[v] >= 2 <==> exists i, j :: 0 <= i < j < |s| && s[i] == v && s[j] == v
    decreases |s|
  {
    if s != [] {
      var rest := s[1..];
      assert s == [s[0]] + rest;
      Twice(rest, v);
      if multiset(s)[v] >= 2 {
        if s[0] == v {
          assert v in multiset(rest);
          var j :| 0 <= j < |rest| && rest[j] == v;
          assert s[0] == v && s[j + 1] == v;
        } else {
          var i, j :| 0 <= i < j < |rest| && rest[i] == v && rest[j] == v;
          assert s[i + 1] == v && s[j + 1] == v;
        }
      }
      if i, j :| 0 <= i < j < |s| && s[i] == v && s[j] == v {
        assert rest[j - 1] == v && v in multiset(rest);
        assert i > 0 ==> rest[i - 1] == v;
      }
    }
  }

  predicate NoneTwice(xs: seq<string>) {
    forall i, j :: 0 <= i < j < |xs| ==> xs[i] != xs[j]
  }

  /** Sorting texts none of which is there twice puts each before the next. */
  lemma SortStrictly(xs: seq<string>)
    requires NoneTwice(xs)
    ensures forall i :: 0 < i < |Sort(xs)| ==> Less(Sort(xs)[i - 1], Sort(xs)[i])
  {
    var ys := Sort(xs);
    SortCorrect(xs);
    forall i | 0 < i < |ys| ensures Less(ys[i - 1], ys[i]) {
      if ys[i - 1] == ys[i] {
        Twice(ys, ys[i]);
        Twice(xs, ys[i]);
      }
      LessTotal(ys[i - 1], ys[i]);
    }
  }

  /** The order is that of bytes: the first difference decides, and a text comes before its own continuations. */
  lemma {:induction false} LessIsByteOrder(a: string, b: string)
    ensures Less(a, b) <==>
      (a < b || exists k :: Differ(a, b, k))
  {
    if a != "" && b != "" {
      var x, y := a[1..], b[1..];
      LessIsByteOrder(x, y);
      assert a == [a[0]] + x && b == [b[0]] + y;
      hide Less;
      assert a < b <==> a[0] == b[0] && x < y;
      if a[0] == b[0] {
        if k :| Differ(a, b, k) {
          assert k > 0 && a[..k] == [a[0]] + x[..k - 1] && b[..k] == [b[0]] + y[..k - 1];
          assert a[..k][1..] == x[..k - 1] && b[..k][1..] == y[..k - 1];
          assert Differ(x, y, k - 1);
        }
        if k :| Differ(x, y, k) {
          assert a[..k + 1] == [a[0]] + x[..k] && b[..k + 1] == [b[0]] + y[..k];
          assert Differ(a, b, k + 1);
        }
      } else {
        forall k | k > 0 ensures !Differ(a, b, k) {
          assert k < |a| && k < |b| ==> a[..k][0] == a[0] && b[..k][0] == b[0];
        }
        assert a[..0] == b[..0];
        assert Differ(a, b, 0) <==> a[0] < b[0];
      }
    }
  }

  /** The texts agree up to here, and the first is smaller here. */
  predicate Differ(a: string, b: string, k: int) {
    0 <= k < |a| && k < |b| && a[..k] == b[..k] && a[k] < b[k]
  }
}
