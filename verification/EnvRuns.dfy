/** What pushes do to the env file: one push, its repeat, and any sequence of them. */
module EnvRuns {
  import opened Common
  import opened EnvFile

  ghost predicate AllOneLine(lines: seq<string>) {
    forall i :: 0 <= i < |lines| ==> OneLine(lines[i])
  }

  // --- rendering and reading back -------------------------------------------------------

  lemma FirstLine(x: string, tail: string, newlineOnly: bool)
    requires OneLine(x)
    ensures Lines(x + "\n" + tail, newlineOnly) == [x] + Lines(tail, newlineOnly)
  {
    var s := x + "\n" + tail;
    assert s == x + ("\n" + tail);
    var n := |x|;
    assert s[n] == '\n' && BreakWidth(s, n, newlineOnly) == 1;
    assert s[..n] == x && s[n + 1..] == tail;
  }

  lemma LinesOfNothing(newlineOnly: bool)
    ensures Lines("", newlineOnly) == []
  {
  }

  /** Both kinds of reader get back exactly the lines that were rendered. */
  lemma {:induction false} LinesOfRender(lines: seq<string>, newlineOnly: bool)
    requires lines != [] && AllOneLine(lines)
    ensures Lines(Render(lines), newlineOnly) == lines
  {
    hide Lines;
    if |lines| == 1 {
      LinesOfNothing(newlineOnly);
      assert lines[0] + "\n" == lines[0] + "\n" + "";
      FirstLine(lines[0], "", newlineOnly);
    } else {
      FirstLine(lines[0], Render(lines[1..]), newlineOnly);
      LinesOfRender(lines[1..], newlineOnly);
    }
  }

  lemma {:induction false} SplitIsOneLine(s: string)
    ensures AllOneLine(SplitLines(s))
    decreases |s|
  {
    if s != "" {
      var n := BeforeBreak(s, false);
      if n < |s| {
        SplitIsOneLine(s[n + BreakWidth(s, n, false)..]);
      }
    }
  }

  // --- what counts as a separator, and as an assignment -----------------------------------

  /** The splitter's ten separators are all refused in values, and besides them exactly the other control
    * characters.
    */
  lemma SeparatorsRefused(ch: char)
    ensures LineBreak(ch)
            <==> ch as int in {0x0A, 0x0B, 0x0C, 0x0D, 0x1C, 0x1D, 0x1E, 0x85, 0x2028, 0x2029}
    ensures Rejected(ch) <==> LineBreak(ch) || ch as int <= 0x1F || ch as int == 0x7F
  {
  }

  /** The 29 characters that are blanks, and the 37 of names. */
  lemma BlanksAndNames(ch: char)
    ensures Space(ch)
            <==> ch as int in {0x09, 0x0A, 0x0B, 0x0C, 0x0D, 0x1C, 0x1D, 0x1E, 0x1F, 0x20, 0x85, 0xA0, 0x1680,
                               0x2000, 0x2001, 0x2002, 0x2003, 0x2004, 0x2005, 0x2006, 0x2007, 0x2008, 0x2009, 0x200A,
                               0x2028, 0x2029, 0x202F, 0x205F, 0x3000}
    ensures NameChar(ch) <==> 65 <= ch as int <= 90 || 48 <= ch as int <= 57 || ch as int == 95
  {
  }

  /** One separator of the reader; for the full splitter a carriage return with its newline is one. */
  predicate Separator(sep: string, newlineOnly: bool) {
    if newlineOnly then sep == "\n" else sep == "\r\n" || (|sep| == 1 && LineBreak(sep[0]))
  }

  ghost predicate NoSeparator(line: string, newlineOnly: bool) {
    forall i :: 0 <= i < |line| ==> !Separator([line[i]], newlineOnly)
  }

  /** Each line followed by its separator, as far as there are any. */
  function Woven(lines: seq<string>, seps: seq<string>): string {
    if lines == [] then "" else lines[0] + (if seps == [] then "" else seps[0] + Woven(lines[1..], seps[1..]))
  }

  /** The text is the lines, none with a separator in it, each followed by one; only behind the last line,
    * unless it is empty, may there be none. A carriage return right before a newline is no separator alone.
    */
  ghost predicate SplitsInto(s: string, lines: seq<string>, seps: seq<string>, newlineOnly: bool) {
    && s == Woven(lines, seps)
    && |seps| <= |lines| <= |seps| + 1 && (|lines| > |seps| ==> lines[|seps|] != "")
    && (forall i :: 0 <= i < |lines| ==> NoSeparator(lines[i], newlineOnly))
    && (forall i :: 0 <= i < |seps| ==> Separator(seps[i], newlineOnly))
    && (!newlineOnly ==>
          forall i :: 0 <= i && i + 1 < |seps| && seps[i] == "\r" && lines[i + 1] == "" ==> !StartsNewline(seps[i + 1]))
  }

  predicate StartsNewline(s: string) {
    s != "" && s[0] == '\n'
  }

  lemma FrontIsLine(s: string, newlineOnly: bool)
    ensures NoSeparator(s[..BeforeBreak(s, newlineOnly)], newlineOnly)
  {
    var n := BeforeBreak(s, newlineOnly);
    forall i | 0 <= i < n
      ensures !Separator([s[..n][i]], newlineOnly)
    {
      assert !Ends(s[i], newlineOnly);
    }
  }

  lemma SeparatorNext(s: string, newlineOnly: bool)
    requires BeforeBreak(s, newlineOnly) < |s|
    ensures var n := BeforeBreak(s, newlineOnly);
            var w := BreakWidth(s, n, newlineOnly);
            && 1 <= w && n + w <= |s| && Separator(s[n..n + w], newlineOnly)
            && (!newlineOnly && s[n..n + w] == "\r" ==> !StartsNewline(s[n + w..]))
  {
    var n := BeforeBreak(s, newlineOnly);
  }

  lemma LinesUnfold(s: string, newlineOnly: bool)
    requires s != ""
    ensures var n := BeforeBreak(s, newlineOnly);
            Lines(s, newlineOnly)
            == if n == |s| then [s] else [s[..n]] + Lines(s[n + BreakWidth(s, n, newlineOnly)..], newlineOnly)
  {
  }

  lemma OneMoreLine(line: string, sep: string, rest: string, lines: seq<string>, seps: seq<string>, newlineOnly: bool)
    requires SplitsInto(rest, lines, seps, newlineOnly)
    requires NoSeparator(line, newlineOnly) && Separator(sep, newlineOnly)
    requires !newlineOnly && sep == "\r" ==> !StartsNewline(rest)
    ensures SplitsInto(line + (sep + rest), [line] + lines, [sep] + seps, newlineOnly)
  {
    hide NoSeparator, Separator;
    var ls, ss := [line] + lines, [sep] + seps;
    assert ls[1..] == lines && ss[1..] == seps;
    if lines != [] && seps != [] && lines[0] == "" && StartsNewline(seps[0]) {
      assert rest[0] == seps[0][0];
    }
    assert forall i :: 1 <= i && i + 1 < |ss| ==> ss[i] == seps[i - 1] && ss[i + 1] == seps[i] && ls[i + 1] == lines[i];
  }

  lemma OneLineLeft(s: string, newlineOnly: bool)
    ensures SplitsInto("", [], [], newlineOnly)
    ensures s != "" && NoSeparator(s, newlineOnly) ==> SplitsInto(s, [s], [], newlineOnly)
  {
    hide NoSeparator;
  }

  /** What stands behind the first separator of the text. */
  function Behind(s: string, newlineOnly: bool): string
    requires BeforeBreak(s, newlineOnly) < |s|
  {
    var n := BeforeBreak(s, newlineOnly);
    s[n + BreakWidth(s, n, newlineOnly)..]
  }

  lemma FirstLineOff(s: string, seps: seq<string>, newlineOnly: bool)
    requires BeforeBreak(s, newlineOnly) < |s|
    requires SplitsInto(Behind(s, newlineOnly), Lines(Behind(s, newlineOnly), newlineOnly), seps, newlineOnly)
    ensures exists seps' :: SplitsInto(s, Lines(s, newlineOnly), seps', newlineOnly)
  {
    hide BreakWidth, Separator, NoSeparator, BeforeBreak, Ends, StartsNewline, SplitsInto, Lines;
    LinesUnfold(s, newlineOnly);
    FrontIsLine(s, newlineOnly);
    SeparatorNext(s, newlineOnly);
    var n := BeforeBreak(s, newlineOnly);
    var rest := Behind(s, newlineOnly);
    var sep := s[n..n + BreakWidth(s, n, newlineOnly)];
    OneMoreLine(s[..n], sep, rest, Lines(rest, newlineOnly), seps, newlineOnly);
    assert s == s[..n] + (sep + rest);
  }

  /** What either reader makes of any text. */
  lemma {:induction false} LinesSplit(s: string, newlineOnly: bool)
    ensures exists seps :: SplitsInto(s, Lines(s, newlineOnly), seps, newlineOnly)
    decreases |s|
  {
    hide NoSeparator, BeforeBreak, SplitsInto, Lines;
    OneLineLeft(s, newlineOnly);
    if s == "" {
      LinesOfNothing(newlineOnly);
    } else if BeforeBreak(s, newlineOnly) < |s| {
      var rest := Behind(s, newlineOnly);
      LinesSplit(rest, newlineOnly);
      var seps :| SplitsInto(rest, Lines(rest, newlineOnly), seps, newlineOnly);
      FirstLineOff(s, seps, newlineOnly);
    } else {
      LinesUnfold(s, newlineOnly);
      FrontIsLine(s, newlineOnly);
      assert s[..|s|] == s;
    }
  }

  ghost predicate Blank(s: string) {
    forall i :: 0 <= i < |s| ==> Space(s[i])
  }

  /** The line is blanks, the name, blanks, an equals sign and the value. */
  ghost predicate Assigns(line: string, a: Assignment) {
    exists before: string, between: string :: AssignsWith(line, a, before, between)
  }

  ghost predicate AssignsWith(line: string, a: Assignment, before: string, between: string) {
    Blank(before) && Blank(between) && Name(a.name) && line == before + (a.name + (between + ("=" + a.value)))
  }

  lemma {:induction false} Skipped(s: string) returns (blank: string)
    ensures Blank(blank) && s == blank + SkipSpaces(s)
    ensures SkipSpaces(s) != "" ==> !Space(SkipSpaces(s)[0])
    decreases |s|
  {
    hide Space;
    if s != "" && Space(s[0]) {
      var rest := Skipped(s[1..]);
      blank := [s[0]] + rest;
      assert s == [s[0]] + s[1..];
    } else {
      blank := "";
    }
  }

  lemma {:induction false} SkipBlank(blank: string, x: string)
    requires Blank(blank) && (x == "" || !Space(x[0]))
    ensures SkipSpaces(blank + x) == x
    decreases |blank|
  {
    hide Space;
    if blank == "" {
      assert blank + x == x;
    } else {
      assert (blank + x)[1..] == blank[1..] + x;
      SkipBlank(blank[1..], x);
    }
  }

  lemma {:induction false} NameTaken(s: string)
    ensures forall i :: 0 <= i < NameLength(s) ==> NameChar(s[i])
  {
    if s != "" && NameChar(s[0]) {
      NameTaken(s[1..]);
    }
  }

  /** What the reader takes for an assignment is exactly that. */
  lemma ParseIff(line: string, a: Assignment)
    ensures Parse(line) == Some(a) <==> Assigns(line, a)
  {
    hide Parse, AssignsWith;
    if Parse(line) == Some(a) {
      ParsedAssigns(line, a);
    }
    if before: string, between: string :| AssignsWith(line, a, before, between) {
      AssignsParses(line, a, before, between);
    }
  }

  lemma ParsedAssigns(line: string, a: Assignment)
    requires Parse(line) == Some(a)
    ensures Assigns(line, a)
  {
    hide SkipSpaces, NameLength, Blank, Space, NameChar;
    var s := SkipSpaces(line);
    var n := NameLength(s);
    var before := Skipped(line);
    var between := Skipped(s[n..]);
    NameTaken(s);
    var rest := SkipSpaces(s[n..]);
    assert rest == "=" + a.value;
    assert s == s[..n] + s[n..];
    assert AssignsWith(line, a, before, between);
  }

  lemma AssignsParses(line: string, a: Assignment, before: string, between: string)
    requires AssignsWith(line, a, before, between)
    ensures Parse(line) == Some(a)
  {
    var tail := between + ("=" + a.value);
    assert tail[0] == if between == "" then '=' else between[0];
    assert !NameChar(tail[0]);
    var s := a.name + tail;
    assert s[0] == a.name[0] && !Space(s[0]);
    hide SkipSpaces, NameLength, Space, NameChar;
    SkipBlank(before, s);
    NameLengthOf(a.name, tail);
    assert s[..|a.name|] == a.name && s[|a.name|..] == tail;
    var sign := "=" + a.value;
    assert !Space(sign[0]);
    SkipBlank(between, sign);
    assert sign[1..] == a.value;
  }

  // --- what a written line says ---------------------------------------------------------

  lemma {:induction false} NameLengthOf(k: string, rest: string)
    requires (forall i :: 0 <= i < |k| ==> NameChar(k[i])) && rest != "" && !NameChar(rest[0])
    ensures NameLength(k + rest) == |k|
  {
    if k == "" {
      assert k + rest == rest;
    } else {
      assert (k + rest)[1..] == k[1..] + rest;
      NameLengthOf(k[1..], rest);
    }
  }

  lemma WrittenLineParses(k: string, v: string)
    requires Name(k)
    ensures Parse(Line(k, v)) == Some(Assignment(k, v))
  {
    var rest := "=" + v;
    var s := Line(k, v);
    assert s == k + rest && s[0] == k[0];
    assert SkipSpaces(s) == s;
    NameLengthOf(k, rest);
    assert s[..|k|] == k && s[|k|..] == rest;
    assert SkipSpaces(rest) == rest && rest[1..] == v;
  }

  lemma WrittenIsOneLine(k: string, v: string)
    requires Name(k) && CleanValue(v)
    ensures OneLine(Line(k, v))
  {
    var s := Line(k, v);
    forall i | 0 <= i < |s|
      ensures !LineBreak(s[i])
    {
      if i < |k| {
        assert s[i] == k[i];
      } else if i > |k| {
        assert s[i] == v[i - |k| - 1];
      }
    }
  }

  lemma RewriteParses(line: string, m: Mapping)
    requires WellFormed(m)
    ensures var a := Parse(line);
            Parse(Rewrite(line, m))
            == if a.Some? && a.value.name in m.values then Some(Assignment(a.value.name, m.values[a.value.name])) else a
  {
    hide Parse;
    var k := NameIn(line, m);
    if k.Some? {
      assert k.value in m.names;
      WrittenLineParses(k.value, m.values[k.value]);
    }
  }

  lemma {:induction false} AppendedIsOneLine(m: Mapping, seen: set<string>, n: nat)
    requires WellFormed(m) && Accepted(m) && n <= |m.names|
    ensures AllOneLine(Appended(m, seen, n))
  {
    if n > 0 {
      AppendedIsOneLine(m, seen, n - 1);
      WrittenIsOneLine(m.names[n - 1], m.values[m.names[n - 1]]);
    }
  }

  lemma NewLinesAreOneLine(lines: seq<string>, m: Mapping)
    requires WellFormed(m) && Accepted(m) && AllOneLine(lines)
    ensures AllOneLine(NewLines(lines, m))
  {
    hide Parse, OneLine;
    AppendedIsOneLine(m, Seen(lines, m), |m.names|);
    forall i | 0 <= i < |lines|
      ensures OneLine(Rewritten(lines, m)[i])
    {
      var k := NameIn(lines[i], m);
      if k.Some? {
        assert k.value in m.names;
        WrittenIsOneLine(k.value, m.values[k.value]);
      }
    }
  }

  // --- values -----------------------------------------------------------------------------

  lemma {:induction false} ValuesConcat(xs: seq<string>, ys: seq<string>, k: string)
    ensures ValuesOf(xs + ys, k) == ValuesOf(xs, k) + ValuesOf(ys, k)
  {
    hide Parse;
    if ys == [] {
      assert xs + ys == xs;
    } else {
      assert (xs + ys)[..|xs + ys| - 1] == xs + ys[..|ys| - 1];
      ValuesConcat(xs, ys[..|ys| - 1], k);
    }
  }

  ghost predicate AllAre(vs: seq<string>, v: string) {
    forall i :: 0 <= i < |vs| ==> vs[i] == v
  }

  lemma {:induction false} RewrittenValues(lines: seq<string>, m: Mapping, k: string)
    requires WellFormed(m)
    ensures var vs := ValuesOf(Rewritten(lines, m), k);
            && (k in m.values ==> AllAre(vs, m.values[k]) && |vs| == |ValuesOf(lines, k)|)
            && (k !in m.values ==> vs == ValuesOf(lines, k))
  {
    hide Parse, Rewrite;
    if lines != [] {
      var n := |lines| - 1;
      RewrittenValues(lines[..n], m, k);
      assert Rewritten(lines, m)[..n] == Rewritten(lines[..n], m);
      RewriteParses(lines[n], m);
    }
  }

  lemma {:induction false} SeenHasValues(lines: seq<string>, m: Mapping, k: string)
    requires k in m.values
    ensures k in Seen(lines, m) <==> ValuesOf(lines, k) != []
  {
    hide Parse, NameIn;
    if lines != [] {
      var n := |lines| - 1;
      SeenHasValues(lines[..n], m, k);
      assert lines[..n + 1] == lines;
      SeenNext(lines, m, n);
      assert NameIn(lines[n], m) == Some(k) <==> Parse(lines[n]).Some? && Parse(lines[n]).value.name == k by { NamedBy(lines[n], m, k); }
    }
  }

  lemma NamedBy(line: string, m: Mapping, k: string)
    requires k in m.values
    ensures NameIn(line, m) == Some(k) <==> Parse(line).Some? && Parse(line).value.name == k
  {
    hide Parse;
  }

  lemma ValuesOfOne(j: string, v: string, k: string)
    requires Name(j)
    ensures ValuesOf([Line(j, v)], k) == if j == k then [v] else []
  {
    hide Parse;
    WrittenLineParses(j, v);
    assert [Line(j, v)][..0] == [];
  }

  lemma NoValues(k: string)
    ensures ValuesOf([], k) == []
  {
  }

  predicate InFirst(names: seq<string>, n: nat, k: string)
    requires n <= |names|
  {
    n > 0 && (names[n - 1] == k || InFirst(names, n - 1, k))
  }

  lemma {:induction false} InFirstMeans(names: seq<string>, n: nat, k: string)
    requires n <= |names|
    ensures InFirst(names, n, k) <==> exists i :: 0 <= i < n && names[i] == k
  {
    if n > 0 {
      InFirstMeans(names, n - 1, k);
    }
  }

  lemma {:induction false} AppendedValues(m: Mapping, seen: set<string>, n: nat, k: string)
    requires WellFormed(m) && n <= |m.names|
    ensures ValuesOf(Appended(m, seen, n), k)
            == if k in m.values && InFirst(m.names, n, k) && k !in seen then [m.values[k]] else []
  {
    hide Parse, ValuesOf, Line;
    if n == 0 {
      NoValues(k);
    } else {
      var j := m.names[n - 1];
      AppendedValues(m, seen, n - 1, k);
      if j !in seen {
        ValuesOfOne(j, m.values[j], k);
        ValuesConcat(Appended(m, seen, n - 1), [Line(j, m.values[j])], k);
        InFirstMeans(m.names, n - 1, k);
      } else {
        assert Appended(m, seen, n) == Appended(m, seen, n - 1);
      }
    }
  }

  /** After a push every assignment to a pushed name gives it the pushed value, there is at
    * least one, and every other name keeps exactly the values it had.
    */
  lemma PushedValues(lines: seq<string>, m: Mapping, k: string)
    requires WellFormed(m)
    ensures var vs := ValuesOf(NewLines(lines, m), k);
            && (k in m.values ==> vs != [] && AllAre(vs, m.values[k]))
            && (k !in m.values ==> vs == ValuesOf(lines, k))
  {
    hide Parse, ValuesOf, Rewritten, Seen, Appended;
    var seen := Seen(lines, m);
    RewrittenValues(lines, m, k);
    AppendedValues(m, seen, |m.names|, k);
    ValuesConcat(Rewritten(lines, m), Appended(m, seen, |m.names|), k);
    InFirstMeans(m.names, |m.names|, k);
    if k in m.values {
      SeenHasValues(lines, m, k);
    }
  }

  // --- every other line -------------------------------------------------------------------

  /** The lines that assign none of `names`, in order. */
  function Others(lines: seq<string>, names: set<string>): seq<string> {
    if lines == [] then []
    else
      var l := lines[|lines| - 1];
      var a := Parse(l);
      Others(lines[..|lines| - 1], names) + (if a.Some? && a.value.name in names then [] else [l])
  }

  lemma {:induction false} OthersConcat(xs: seq<string>, ys: seq<string>, names: set<string>)
    ensures Others(xs + ys, names) == Others(xs, names) + Others(ys, names)
  {
    hide Parse;
    if ys == [] {
      assert xs + ys == xs;
    } else {
      assert (xs + ys)[..|xs + ys| - 1] == xs + ys[..|ys| - 1];
      OthersConcat(xs, ys[..|ys| - 1], names);
    }
  }

  lemma {:induction false} OthersRewritten(lines: seq<string>, m: Mapping, names: set<string>)
    requires WellFormed(m) && m.values.Keys <= names
    ensures Others(Rewritten(lines, m), names) == Others(lines, names)
  {
    hide Parse;
    if lines != [] {
      var n := |lines| - 1;
      OthersRewritten(lines[..n], m, names);
      assert Rewritten(lines, m)[..n] == Rewritten(lines[..n], m);
      RewriteParses(lines[n], m);
    }
  }

  lemma {:induction false} OthersAppended(m: Mapping, seen: set<string>, n: nat, names: set<string>)
    requires WellFormed(m) && m.values.Keys <= names && n <= |m.names|
    ensures Others(Appended(m, seen, n), names) == []
  {
    hide Parse;
    if n > 0 {
      var j := m.names[n - 1];
      OthersAppended(m, seen, n - 1, names);
      if j !in seen {
        WrittenLineParses(j, m.values[j]);
        assert Appended(m, seen, n)[..|Appended(m, seen, n)| - 1] == Appended(m, seen, n - 1);
      } else {
        assert Appended(m, seen, n) == Appended(m, seen, n - 1);
      }
    }
  }

  /** Lines that assign nothing pushed are kept unchanged and in order. */
  lemma OtherLinesKept(lines: seq<string>, m: Mapping, names: set<string>)
    requires WellFormed(m) && m.values.Keys <= names
    ensures Others(NewLines(lines, m), names) == Others(lines, names)
  {
    hide Parse, Others;
    OthersRewritten(lines, m, names);
    OthersAppended(m, Seen(lines, m), |m.names|, names);
    OthersConcat(Rewritten(lines, m), Appended(m, Seen(lines, m), |m.names|), names);
  }

  // --- repeating a push -------------------------------------------------------------------

  lemma RewriteTwice(line: string, m: Mapping)
    requires WellFormed(m)
    ensures Rewrite(Rewrite(line, m), m) == Rewrite(line, m)
  {
    hide Parse;
    RewriteParses(line, m);
  }

  lemma {:induction false} AppendedRewrites(m: Mapping, seen: set<string>, n: nat)
    requires WellFormed(m) && n <= |m.names|
    ensures Rewritten(Appended(m, seen, n), m) == Appended(m, seen, n)
  {
    hide Parse;
    if n > 0 {
      AppendedRewrites(m, seen, n - 1);
      var j := m.names[n - 1];
      WrittenLineParses(j, m.values[j]);
      assert Rewrite(Line(j, m.values[j]), m) == Line(j, m.values[j]);
    }
  }

  lemma {:induction false} NothingMissing(m: Mapping, seen: set<string>, n: nat)
    requires WellFormed(m) && n <= |m.names| && forall k :: k in m.values ==> k in seen
    ensures Appended(m, seen, n) == []
  {
    hide Line, Name;
    if n > 0 {
      NothingMissing(m, seen, n - 1);
      assert m.names[n - 1] in seen;
    }
  }

  lemma NewLinesTwice(lines: seq<string>, m: Mapping)
    requires WellFormed(m)
    ensures NewLines(NewLines(lines, m), m) == NewLines(lines, m)
  {
    var out := NewLines(lines, m);
    var seen := Seen(out, m);
    hide Parse, Rewrite, Seen, Appended, ValuesOf;
    forall k | k in m.values
      ensures k in seen
    {
      PushedValues(lines, m, k);
      SeenHasValues(out, m, k);
    }
    NothingMissing(m, seen, |m.names|);
    AppendedRewrites(m, Seen(lines, m), |m.names|);
    forall i | 0 <= i < |out|
      ensures Rewrite(out[i], m) == out[i]
    {
      if i < |lines| {
        RewriteTwice(lines[i], m);
      } else {
        var app := Appended(m, Seen(lines, m), |m.names|);
        assert Rewritten(app, m)[i - |lines|] == app[i - |lines|];
      }
    }
    assert Rewritten(out, m) == out;
  }

  lemma PushedReadsBack(text: string, m: Mapping, newlineOnly: bool)
    requires WellFormed(m) && Accepted(m) && m.names != []
    ensures Lines(Pushed(text, m), newlineOnly) == NewLines(SplitLines(text), m)
  {
    hide Parse, Lines, Render;
    var lines := SplitLines(text);
    SplitIsOneLine(text);
    NewLinesAreOneLine(lines, m);
    PushedValues(lines, m, m.names[0]);
    LinesOfRender(NewLines(lines, m), newlineOnly);
  }

  /** After any accepted push a newline-only reader sees the same lines as the full splitter. */
  lemma ReadersAgree(text: string, m: Mapping)
    requires WellFormed(m) && Accepted(m) && m.names != []
    ensures Lines(Pushed(text, m), true) == SplitLines(Pushed(text, m))
  {
    PushedReadsBack(text, m, true);
    PushedReadsBack(text, m, false);
  }

  /** Repeating a push leaves the text identical. */
  lemma PushTwice(text: string, m: Mapping)
    requires WellFormed(m) && m.names != []
    ensures Pushed(Pushed(text, m), m) == Pushed(text, m)
  {
    hide NewLines, Lines, Render;
    if Accepted(m) {
      PushedReadsBack(text, m, false);
      NewLinesTwice(SplitLines(text), m);
    }
  }

  // --- any sequence of pushes ---------------------------------------------------------------

  ghost predicate Pushes(ms: seq<Mapping>) {
    forall i :: 0 <= i < |ms| ==> WellFormed(ms[i]) && ms[i].names != []
  }

  ghost function After(text: string, ms: seq<Mapping>): string
    requires Pushes(ms)
  {
    if ms == [] then text else Pushed(After(text, ms[..|ms| - 1]), ms[|ms| - 1])
  }

  /** The value of the last accepted push of `k`, if there was one. */
  function Latest(ms: seq<Mapping>, k: string): Option<string> {
    if ms == [] then None
    else
      var m := ms[|ms| - 1];
      if Accepted(m) && k in m.values then Some(m.values[k]) else Latest(ms[..|ms| - 1], k)
  }

  function NamesIn(ms: seq<Mapping>): set<string> {
    set i, k | 0 <= i < |ms| && k in ms[i].values :: k
  }

  /** Over any sequence of pushes, a pushed name reads as its latest accepted value and
    * nothing else, and a name never accepted reads as it did at the start: no name appears
    * that was neither there nor pushed.
    */
  lemma {:induction false} RunValues(text: string, ms: seq<Mapping>, k: string)
    requires Pushes(ms)
    ensures var vs := ValuesOf(SplitLines(After(text, ms)), k);
            && (Latest(ms, k).Some? ==> vs != [] && AllAre(vs, Latest(ms, k).value))
            && (Latest(ms, k).None? ==> vs == ValuesOf(SplitLines(text), k))
  {
    hide NewLines, ValuesOf, Lines, Pushed;
    if ms != [] {
      var m := ms[|ms| - 1];
      var before := After(text, ms[..|ms| - 1]);
      RunValues(text, ms[..|ms| - 1], k);
      if Accepted(m) {
        PushedReadsBack(before, m, false);
        PushedValues(SplitLines(before), m, k);
      } else {
        assert Pushed(before, m) == before by { RefusedChangesNothing(before, m); }
      }
    }
  }

  lemma RefusedChangesNothing(text: string, m: Mapping)
    requires WellFormed(m) && !Accepted(m)
    ensures Pushed(text, m) == text
  {
  }

  /** Over any sequence of pushes, the lines that assign no pushed name stay, unchanged and in order. */
  lemma {:induction false} RunKeepsOthers(text: string, ms: seq<Mapping>, names: set<string>)
    requires Pushes(ms) && NamesIn(ms) <= names
    ensures Others(SplitLines(After(text, ms)), names) == Others(SplitLines(text), names)
  {
    hide NewLines, Others, Lines, Pushed;
    if ms != [] {
      var init := ms[..|ms| - 1];
      var m := ms[|ms| - 1];
      assert NamesIn(init) <= names by {
        forall k | k in NamesIn(init)
          ensures k in names
        {
          var i :| 0 <= i < |init| && k in init[i].values;
          assert k in ms[i].values;
        }
      }
      assert m.values.Keys <= names by {
        forall k | k in m.values ensures k in names { assert k in ms[|ms| - 1].values; }
      }
      RunKeepsOthers(text, init, names);
      var before := After(text, init);
      if Accepted(m) {
        PushedReadsBack(before, m, false);
        OtherLinesKept(SplitLines(before), m, names);
      } else {
        RefusedChangesNothing(before, m);
      }
    }
  }
}
