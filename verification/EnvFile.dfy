/** The sensor's env file and the writer that pushes `KEY=VALUE` lines into it
  * (collector/src/collector/checkin.py, `_reject_control_chars` and `_update_env_file`).
  * The writer re-reads the file with a line splitter that knows ten separators, while other
  * readers of the file only know the newline.
  */
module EnvFile {
  import opened Common

  // --- characters -----------------------------------------------------------------------

  /** The separators `str.splitlines` splits on. */
  predicate LineBreak(ch: char) {
    var c := ch as int;
    0x0A <= c <= 0x0D || 0x1C <= c <= 0x1E || c == 0x85 || c == 0x2028 || c == 0x2029
  }

  /** Whitespace as the regular expression engine sees it. */
  predicate Space(ch: char) {
    var c := ch as int;
    0x09 <= c <= 0x0D || 0x1C <= c <= 0x20 || c == 0x85 || c == 0xA0 || c == 0x1680 || 0x2000 <= c <= 0x200A
    || c == 0x2028 || c == 0x2029 || c == 0x202F || c == 0x205F || c == 0x3000
  }

  predicate NameChar(ch: char) {
    'A' <= ch <= 'Z' || '0' <= ch <= '9' || ch == '_'
  }

  /** Every C0 control, DEL, and the three separators outside that range. */
  predicate Rejected(ch: char) {
    var c := ch as int;
    c < 0x20 || c == 0x7F || c == 0x85 || c == 0x2028 || c == 0x2029
  }

  predicate Name(s: string) {
    s != "" && forall i :: 0 <= i < |s| ==> NameChar(s[i])
  }

  predicate CleanValue(s: string) {
    forall i :: 0 <= i < |s| ==> !Rejected(s[i])
  }

  predicate OneLine(s: string) {
    forall i :: 0 <= i < |s| ==> !LineBreak(s[i])
  }

  // --- reading ----------------------------------------------------------------------------

  /** Length of the leading part of `s` without a separator. */
  function BeforeBreak(s: string, newlineOnly: bool): (n: nat)
    ensures n <= |s|
    ensures forall i :: 0 <= i < n ==> !Ends(s[i], newlineOnly)
    ensures n < |s| ==> Ends(s[n], newlineOnly)
  {
    if s == "" || Ends(s[0], newlineOnly) then 0 else 1 + BeforeBreak(s[1..], newlineOnly)
  }

  predicate Ends(ch: char, newlineOnly: bool) {
    if newlineOnly then ch == '\n' else LineBreak(ch)
  }

  /** A carriage return and newline together are one separator for the full splitter. */
  function BreakWidth(s: string, n: nat, newlineOnly: bool): nat
    requires n < |s|
  {
    if !newlineOnly && s[n] == '\r' && n + 1 < |s| && s[n + 1] == '\n' then 2 else 1
  }

  /** The lines of a text; a final separator starts no further line. */
  function Lines(s: string, newlineOnly: bool): seq<string>
    decreases |s|
  {
    if s == "" then []
    else
      var n := BeforeBreak(s, newlineOnly);
      if n == |s| then [s]
      else [s[..n]] + Lines(s[n + BreakWidth(s, n, newlineOnly)..], newlineOnly)
  }

  function SplitLines(s: string): seq<string> { Lines(s, false) }

  function SkipSpaces(s: string): (r: string)
    ensures |r| <= |s|
  {
    if s != "" && Space(s[0]) then SkipSpaces(s[1..]) else s
  }

  function NameLength(s: string): (n: nat)
    ensures n <= |s|
  {
    if s != "" && NameChar(s[0]) then 1 + NameLength(s[1..]) else 0
  }

  /** The name and value of an assignment line: blanks, a name, blanks, `=`, the rest. */
  datatype Assignment = Assignment(name: string, value: string)

  function Parse(line: string): Option<Assignment> {
    var s := SkipSpaces(line);
    var n := NameLength(s);
    var rest := SkipSpaces(s[n..]);
    if n > 0 && rest != "" && rest[0] == '=' then Some(Assignment(s[..n], rest[1..])) else None
  }

  /** The values the assignments to `name` give it, in file order. */
  function ValuesOf(lines: seq<string>, name: string): seq<string> {
    if lines == [] then []
    else
      var a := Parse(lines[|lines| - 1]);
      ValuesOf(lines[..|lines| - 1], name)
      + (if a.Some? && a.value.name == name then [a.value.value] else [])
  }

  // --- writing ----------------------------------------------------------------------------

  /** A dictionary with its insertion order. */
  datatype Mapping = Mapping(names: seq<string>, values: map<string, string>)

  ghost predicate WellFormed(m: Mapping) {
    && (forall i :: 0 <= i < |m.names| ==> m.names[i] in m.values && Name(m.names[i]))
    && (forall k :: k in m.values ==> k in m.names)
    && (forall i, j :: 0 <= i < j < |m.names| ==> m.names[i] != m.names[j])
  }

  predicate Accepted(m: Mapping) {
    forall k | k in m.values :: CleanValue(m.values[k])
  }

  function Line(name: string, value: string): string {
    name + "=" + value
  }

  function NameIn(line: string, m: Mapping): Option<string> {
    var a := Parse(line);
    if a.Some? && a.value.name in m.values then Some(a.value.name) else None
  }

  function Rewrite(line: string, m: Mapping): string {
    var k := NameIn(line, m);
    if k.Some? then Line(k.value, m.values[k.value]) else line
  }

  function Rewritten(lines: seq<string>, m: Mapping): seq<string> {
    seq(|lines|, i requires 0 <= i < |lines| => Rewrite(lines[i], m))
  }

  function Seen(lines: seq<string>, m: Mapping): set<string> {
    set i | 0 <= i < |lines| && NameIn(lines[i], m).Some? :: NameIn(lines[i], m).value
  }

  /** Lines for the first `n` names that were not seen in the file. */
  function Appended(m: Mapping, seen: set<string>, n: nat): seq<string>
    requires n <= |m.names| && forall i :: 0 <= i < |m.names| ==> m.names[i] in m.values
  {
    if n == 0 then []
    else
      var k := m.names[n - 1];
      Appended(m, seen, n - 1) + (if k in seen then [] else [Line(k, m.values[k])])
  }

  function NewLines(lines: seq<string>, m: Mapping): seq<string>
    requires forall i :: 0 <= i < |m.names| ==> m.names[i] in m.values
  {
    Rewritten(lines, m) + Appended(m, Seen(lines, m), |m.names|)
  }

  /** The lines joined by newlines, with a closing newline. */
  function Render(lines: seq<string>): string {
    if lines == [] then "\n" else if |lines| == 1 then lines[0] + "\n" else lines[0] + "\n" + Render(lines[1..])
  }

  function Pushed(text: string, m: Mapping): string
    requires forall i :: 0 <= i < |m.names| ==> m.names[i] in m.values
  {
    if Accepted(m) then Render(NewLines(SplitLines(text), m)) else text
  }

  class Env {
    /** None while the file does not exist. */
    var text: Option<string>

    /** Set the mapping's lines and keep the rest. A value with a control character is refused
      * before anything is read or written.
      */
    method Update(m: Mapping) returns (refused: bool)
      requires WellFormed(m)
      modifies this
      ensures refused <==> !Accepted(m)
      ensures refused ==> text == old(text)
      ensures !refused ==> text == Some(Pushed(if old(text).Some? then old(text).value else "", m))
    {
      hide Lines, Render, NewLines;
      refused := RejectControlChars(m);
      if !refused {
        var lines := if text.Some? then SplitLines(text.value) else [];
        assert SplitLines("") == [] by { NoLines(); }
        var out := MergeLines(lines, m);
        text := Some(Render(out));
      }
    }
  }

  lemma NoLines()
    ensures SplitLines("") == []
  {
  }

  method RejectControlChars(m: Mapping) returns (refused: bool)
    requires WellFormed(m)
    ensures refused <==> !Accepted(m)
  {
    var i := 0;
    while i < |m.names|
      invariant 0 <= i <= |m.names|
      invariant forall j :: 0 <= j < i ==> CleanValue(m.values[m.names[j]])
    {
      if !CleanValue(m.values[m.names[i]]) {
        return true;
      }
      i := i + 1;
    }
    return false;
  }

  method MergeLines(lines: seq<string>, m: Mapping) returns (out: seq<string>)
    requires WellFormed(m)
    ensures out == NewLines(lines, m)
  {
    hide Parse;
    var seen: set<string> := {};
    out := [];
    var i := 0;
    while i < |lines|
      invariant 0 <= i <= |lines|
      invariant out == Rewritten(lines, m)[..i]
      invariant seen == Seen(lines[..i], m)
    {
      SeenNext(lines, m, i);
      var a := Parse(lines[i]);
      if a.Some? && a.value.name in m.values {
        out := out + [a.value.name + "=" + m.values[a.value.name]];
        seen := seen + {a.value.name};
      } else {
        out := out + [lines[i]];
      }
      i := i + 1;
    }
    assert lines[..i] == lines;
    out := AppendMissing(out, m, seen);
  }

  method AppendMissing(out0: seq<string>, m: Mapping, seen: set<string>) returns (out: seq<string>)
    requires WellFormed(m)
    ensures out == out0 + Appended(m, seen, |m.names|)
  {
    out := out0;
    var i := 0;
    while i < |m.names|
      invariant 0 <= i <= |m.names|
      invariant out == out0 + Appended(m, seen, i)
    {
      var k := m.names[i];
      if k !in seen {
        out := out + [k + "=" + m.values[k]];
      }
      i := i + 1;
    }
  }

  lemma SeenNext(lines: seq<string>, m: Mapping, i: nat)
    requires i < |lines|
    ensures Seen(lines[..i + 1], m)
            == Seen(lines[..i], m) + (if NameIn(lines[i], m).Some? then {NameIn(lines[i], m).value} else {})
  {
    hide NameIn;
    var a, b := Seen(lines[..i + 1], m), Seen(lines[..i], m);
    forall k
      ensures k in a <==> k in b || (NameIn(lines[i], m).Some? && k == NameIn(lines[i], m).value)
    {
      if k in a {
        var j :| 0 <= j < i + 1 && NameIn(lines[..i + 1][j], m).Some? && NameIn(lines[..i + 1][j], m).value == k;
        assert j < i ==> lines[..i][j] == lines[j];
      }
      if k in b {
        var j :| 0 <= j < i && NameIn(lines[..i][j], m).Some? && NameIn(lines[..i][j], m).value == k;
        assert lines[..i + 1][j] == lines[j];
      }
      assert lines[..i + 1][i] == lines[i];
    }
  }
}
