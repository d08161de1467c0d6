/** The log tools: merging continuation lines into the line they continue, for a
    whole log or for one subject while it is written. */
module Mulog {

  import opened Wrappers

  // ----- lines -----

  predicate IsHex(c: char) {
    '0' <= c <= '9' || 'a' <= c <= 'f' || 'A' <= c <= 'F'
  }

  /** A subject's tag: 16#, four hexadecimal digits, and # again. */
  predicate IsTag(t: string) {
    |t| == 8 && t[..3] == "16#" && IsHex(t[3]) && IsHex(t[4]) && IsHex(t[5]) && IsHex(t[6]) && t[7] == '#'
  }

  function Take(s: string, n: nat): string {
    if |s| <= n then s else s[..n]
  }

  function Drop(s: string, n: nat): string {
    if |s| <= n then "" else s[n..]
  }

  /** A line that continues the last line of its subject. */
  predicate Continues(line: string) {
    |line| > 8 && IsTag(line[..8]) && line[8] == '>'
  }

  function RStrip(s: string, chars: string): (r: string)
    ensures r <= s
    decreases |s|
  {
    if s == "" || s[|s| - 1] !in chars then s else RStrip(s[..|s| - 1], chars)
  }

  // ----- the batch tool -----

  /** The last of the formatted lines with the given prefix. */
  function LastWith(formatted: seq<string>, prefix: string): (i: int)
    ensures -1 <= i < |formatted|
    ensures i >= 0 ==> Take(formatted[i], 9) == prefix
    ensures forall k :: i < k < |formatted| ==> Take(formatted[k], 9) != prefix
  {
    if formatted == [] then -1
    else if Take(formatted[|formatted| - 1], 9) == prefix then |formatted| - 1
    else LastWith(formatted[..|formatted| - 1], prefix)
  }

  /** Append to the parent line; without one the tool raises an exception. */
  function Append(formatted: seq<string>, prefix: string, text: string): Option<seq<string>> {
    var i := LastWith(formatted, prefix);
    if i < 0 then None else Some(formatted[i := formatted[i] + text])
  }

  function Step(formatted: seq<string>, line: string): Option<seq<string>> {
    if Continues(line) then Append(formatted, line[..8] + "|", Drop(line, 9))
    else if Take(line, 3) != "---" then Some(formatted + [line])
    else Some(formatted)
  }

  /** The formatted lines after all lines; None if a parent was missing. */
  function Merge(lines: seq<string>): Option<seq<string>> {
    if lines == [] then Some([])
    else
      var front := Merge(lines[..|lines| - 1]);
      if front.None? then None else Step(front.value, lines[|lines| - 1])
  }

  method AppendToParent(formatted: seq<string>, prefix: string, text: string) returns (r: Option<seq<string>>)
    ensures r == Append(formatted, prefix, text)
  {
    var idx: nat := |formatted|;
    while idx > 0
      invariant idx <= |formatted|
      invariant forall k :: idx <= k < |formatted| ==> Take(formatted[k], 9) != prefix
    {
      idx := idx - 1;
      if Take(formatted[idx], 9) == prefix {
        return Some(formatted[idx := formatted[idx] + text]);
      }
    }
    return None;
  }

  method MergeLog(lines: seq<string>) returns (r: Option<seq<string>>)
    ensures r == Merge(Stripped(lines))
  {
    var formatted: seq<string> := [];
    StrippedLength(lines);
    for i := 0 to |lines|
      invariant Merge(Stripped(lines)[..i]) == Some(formatted)
    {
      var line := RStrip(lines[i], "\r\n");
      MergePrefix(Stripped(lines), i);
      if Continues(line) {
        r := AppendToParent(formatted, line[..8] + "|", Drop(line, 9));
        if r.None? {
          MergeStops(Stripped(lines), i + 1);
          return None;
        }
        formatted := r.value;
      } else if Take(line, 3) != "---" {
        formatted := formatted + [line];
      }
    }
    assert Stripped(lines)[..|lines|] == Stripped(lines);
    return Some(formatted);
  }

  function Stripped(lines: seq<string>): (r: seq<string>)
    ensures |r| == |lines| && forall i :: 0 <= i < |lines| ==> r[i] == RStrip(lines[i], "\r\n")
  {
    seq(|lines|, i requires 0 <= i < |lines| => RStrip(lines[i], "\r\n"))
  }

  lemma StrippedLength(lines: seq<string>)
    ensures Stripped(lines)[..0] == []
  {
  }

  lemma MergePrefix(lines: seq<string>, i: nat)
    requires i < |lines| && Merge(lines[..i]).Some?
    ensures Merge(lines[..i + 1]) == Step(Merge(lines[..i]).value, lines[i])
  {
    assert lines[..i + 1][..i] == lines[..i];
  }

  lemma {:induction false} MergeStops(lines: seq<string>, i: nat)
    requires i <= |lines| && Merge(lines[..i]).None?
    ensures Merge(lines).None?
  {
    if i == |lines| {
      assert lines[..i] == lines;
    } else {
      var front := lines[..|lines| - 1];
      assert front[..i] == lines[..i];
      MergeStops(front, i);
    }
  }

  // ----- projection to one subject -----

  predicate Of(tag: string, line: string) {
    Take(line, 8) == tag
  }

  function Project(tag: string, lines: seq<string>): seq<string> {
    if lines == [] then []
    else
      var last := lines[|lines| - 1];
      Project(tag, lines[..|lines| - 1]) + (if Of(tag, last) then [last] else [])
  }

  lemma ProjectSnoc(tag: string, lines: seq<string>, line: string)
    ensures Project(tag, lines + [line]) == Project(tag, lines) + (if Of(tag, line) then [line] else [])
  {
    assert (lines + [line])[..|lines|] == lines;
  }

  lemma AppendKeepsStart(l: string, text: string, prefix: string)
    requires Take(l, 9) == prefix && |prefix| == 9
    ensures Take(l + text, 9) == prefix && Take(l + text, 8) == Take(l, 8) == prefix[..8]
  {
    assert l[..9] == prefix;
    assert (l + text)[..9] == l[..9] && (l + text)[..8] == l[..9][..8] == l[..8];
  }

  lemma LastWithSnoc(front: seq<string>, last: string, prefix: string)
    ensures LastWith(front + [last], prefix) ==
      if Take(last, 9) == prefix then |front| else LastWith(front, prefix)
  {
    assert (front + [last])[..|front|] == front;
  }

  lemma AppendSnoc(front: seq<string>, last: string, prefix: string, text: string)
    ensures Append(front + [last], prefix, text) ==
      if Take(last, 9) == prefix then Some(front + [last + text])
      else if Append(front, prefix, text).None? then None
      else Some(Append(front, prefix, text).value + [last])
  {
    LastWithSnoc(front, last, prefix);
    var i := LastWith(front, prefix);
    if Take(last, 9) == prefix {
      assert (front + [last])[|front| := last + text] == front + [last + text];
    } else if i >= 0 {
      assert (front + [last])[i := front[i] + text] == front[i := front[i] + text] + [last];
    }
  }

  /** Appending to a line of the subject can be done before or after the
      projection to it. */
  lemma {:induction false} AppendProjects(tag: string, formatted: seq<string>, text: string)
    requires |tag| == 8
    ensures var all, own := Append(formatted, tag + "|", text), Append(Project(tag, formatted), tag + "|", text);
      && (all.None? <==> own.None?)
      && (all.Some? ==> own == Some(Project(tag, all.value)))
  {
    var prefix := tag + "|";
    if formatted != [] {
      var front, last := formatted[..|formatted| - 1], formatted[|formatted| - 1];
      assert formatted == front + [last];
      AppendProjects(tag, front, text);
      ProjectSnoc(tag, front, last);
      AppendSnoc(front, last, prefix, text);
      if Take(last, 9) == prefix {
        AppendKeepsStart(last, text, prefix);
        assert prefix[..8] == tag;
        ProjectSnoc(tag, front, last + text);
        AppendSnoc(Project(tag, front), last, prefix, text);
      } else if Of(tag, last) {
        AppendSnoc(Project(tag, front), last, prefix, text);
        if Append(front, prefix, text).Some? {
          ProjectSnoc(tag, Append(front, prefix, text).value, last);
        }
      } else {
        assert Project(tag, formatted) == Project(tag, front);
        if Append(front, prefix, text).Some? {
          var f := Append(front, prefix, text).value;
          ProjectSnoc(tag, f, last);
          assert Project(tag, f + [last]) == Project(tag, f);
        }
      }
    }
  }

  /** Appending to a line of another subject does not show. */
  lemma {:induction false} AppendElsewhere(tag: string, other: string, formatted: seq<string>, text: string)
    requires |tag| == 8 && |other| == 8 && tag != other && Append(formatted, other + "|", text).Some?
    ensures Project(tag, Append(formatted, other + "|", text).value) == Project(tag, formatted)
  {
    var prefix := other + "|";
    if formatted != [] {
      var front, last := formatted[..|formatted| - 1], formatted[|formatted| - 1];
      assert formatted == front + [last];
      AppendSnoc(front, last, prefix, text);
      ProjectSnoc(tag, front, last);
      if Take(last, 9) == prefix {
        AppendKeepsStart(last, text, prefix);
        assert prefix[..8] == other;
        ProjectSnoc(tag, front, last + text);
      } else {
        AppendElsewhere(tag, other, front, text);
        ProjectSnoc(tag, Append(front, prefix, text).value, last);
      }
    }
  }

  lemma StepProjects(tag: string, formatted: seq<string>, line: string)
    requires IsTag(tag) && Step(formatted, line).Some?
    ensures Of(tag, line) ==> Step(Project(tag, formatted), line) == Some(Project(tag, Step(formatted, line).value))
    ensures !Of(tag, line) ==> Project(tag, Step(formatted, line).value) == Project(tag, formatted)
  {
    if Continues(line) {
      if Of(tag, line) {
        assert line[..8] == tag;
        AppendProjects(tag, formatted, Drop(line, 9));
      } else {
        AppendElsewhere(tag, line[..8], formatted, Drop(line, 9));
      }
    } else if Take(line, 3) != "---" {
      ProjectSnoc(tag, formatted, line);
    }
    TagIsNoRule(tag, line);
  }

  lemma TagIsNoRule(tag: string, line: string)
    requires IsTag(tag)
    ensures Of(tag, line) ==> Take(line, 3) != "---"
  {
    if Of(tag, line) {
      assert Take(line, 3) == tag[..3];
    }
  }

  /** Merging and looking at one subject commute, however the subjects are
      interleaved. */
  lemma {:induction false} MergeProjects(tag: string, lines: seq<string>)
    requires IsTag(tag) && Merge(lines).Some?
    ensures Merge(Project(tag, lines)) == Some(Project(tag, Merge(lines).value))
  {
    if lines != [] {
      var front, last := lines[..|lines| - 1], lines[|lines| - 1];
      MergeProjects(tag, front);
      StepProjects(tag, Merge(front).value, last);
      if Of(tag, last) {
        var own := Project(tag, front);
        assert (own + [last])[..|own|] == own;
      } else {
        assert Project(tag, lines) == Project(tag, front);
      }
      hide Step, Of;
    }
  }

  // ----- when the batch tool fails -----

  predicate StartsLine(tag: string, line: string) {
    Take(line, 9) == tag + "|"
  }

  /** Every continuation has a line of its subject before it. */
  predicate NoOrphans(lines: seq<string>) {
    forall i :: 0 <= i < |lines| && Continues(lines[i]) ==> HasParent(lines, i)
  }

  predicate HasParent(lines: seq<string>, i: nat)
    requires i < |lines| && Continues(lines[i])
  {
    exists j :: 0 <= j < i && StartsLine(lines[i][..8], lines[j])
  }

  /** The starts of lines that the formatted lines hold are those read so far. */
  lemma {:induction false} StartsKept(lines: seq<string>, tag: string)
    requires Merge(lines).Some? && IsTag(tag)
    ensures (exists k :: 0 <= k < |Merge(lines).value| && StartsLine(tag, Merge(lines).value[k]))
      <==> exists j :: 0 <= j < |lines| && StartsLine(tag, lines[j])
  {
    if lines != [] {
      var front, last := lines[..|lines| - 1], lines[|lines| - 1];
      StartsKept(front, tag);
      var f, g := Merge(front).value, Merge(lines).value;
      assert StartsLine(tag, last) ==> Take(last, 3) == "16#" && !Continues(last) by {
        if StartsLine(tag, last) {
          assert Take(last, 3) == (tag + "|")[..3] == tag[..3];
          assert last[8] == (tag + "|")[8];
        }
      }
      if Continues(last) {
        var i := LastWith(f, last[..8] + "|");
        AppendKeepsStart(f[i], Drop(last, 9), last[..8] + "|");
        assert |g| == |f| && forall k :: 0 <= k < |f| ==> Take(g[k], 9) == Take(f[k], 9);
        assert forall k :: 0 <= k < |f| ==> StartsLine(tag, g[k]) == StartsLine(tag, f[k]);
      } else if Take(last, 3) != "---" {
        assert g == f + [last] && g[|f|] == last;
        assert forall k :: 0 <= k < |f| ==> g[k] == f[k];
      }
      assert forall j :: 0 <= j < |front| ==> front[j] == lines[j];
    }
  }

  /** The tool raises its exception exactly at the first orphan. */
  lemma {:induction false} MergesIffNoOrphans(lines: seq<string>)
    ensures Merge(lines).Some? <==> NoOrphans(lines)
  {
    if lines != [] {
      var front, last := lines[..|lines| - 1], lines[|lines| - 1];
      MergesIffNoOrphans(front);
      ParentsInFront(lines);
      if Merge(front).Some? && Continues(last) {
        var tag := last[..8];
        StartsKept(front, tag);
        var f := Merge(front).value;
        var i := LastWith(f, tag + "|");
        assert i >= 0 ==> StartsLine(tag, f[i]);
        assert forall j :: 0 <= j < |front| ==> front[j] == lines[j];
        assert HasParent(lines, |front|) <==> exists j :: 0 <= j < |front| && StartsLine(tag, front[j]);
      }
    }
  }

  lemma ParentsInFront(lines: seq<string>)
    requires lines != []
    ensures var front, n := lines[..|lines| - 1], |lines| - 1;
      NoOrphans(lines) <==> NoOrphans(front) && (Continues(lines[n]) ==> HasParent(lines, n))
  {
    var front := lines[..|lines| - 1];
    forall i | 0 <= i < |front| && Continues(front[i]) ensures HasParent(front, i) == HasParent(lines, i) {
      assert forall j :: 0 <= j < i ==> front[j] == lines[j];
    }
  }

  // ----- the streaming tool -----

  /** The translation table is the two characters CR and 1, for 0 and 1. */
  function Translated(s: string): (t: string)
    ensures |t| == |s|
    ensures forall i :: 0 <= i < |s| ==> t[i] == if s[i] == 0 as char then '\r' else s[i]
  {
    seq(|s|, i requires 0 <= i < |s| => if s[i] == 0 as char then '\r' else s[i])
  }

  predicate Selected(tag: string, line: string) {
    |line| > 8 && line[..8] == tag && line[8] in {'%', '#', '>', '|'}
  }

  /** What is printed for the lines read so far, without the final newline. */
  function Streamed(tag: string, lines: seq<string>): (string, bool) {
    if lines == [] then ("", true)
    else
      var (out, first) := Streamed(tag, lines[..|lines| - 1]);
      var line := lines[|lines| - 1];
      if !Selected(tag, line) then (out, first)
      else (out + Separator(line, first) + Translated(Drop(RStrip(line, "\n"), 9)), false)
  }

  function Separator(line: string, first: bool): string
    requires |line| > 8
  {
    if line[8] != '>' && !first then "\n" else ""
  }

  method StreamSubject(tag: string, lines: seq<string>) returns (out: string)
    requires IsTag(tag)
    ensures out == Streamed(tag, lines).0 + "\n"
  {
    var isFirstLine := true;
    out := "";
    for i := 0 to |lines|
      invariant Streamed(tag, lines[..i]) == (out, isFirstLine)
    {
      var line := lines[i];
      assert lines[..i + 1][..i] == lines[..i] && out + "" == out;
      if Selected(tag, line) {
        if line[8] != '>' && !isFirstLine {
          out := out + "\n";
        }
        out := out + Translated(Drop(RStrip(line, "\n"), 9));
        isFirstLine := false;
      }
    }
    assert lines[..|lines|] == lines;
    out := out + "\n";
  }

  /** The texts of lines, without their prefixes, one under the other. */
  function Texts(lines: seq<string>): string {
    if lines == [] then ""
    else if |lines| == 1 then Drop(lines[0], 9)
    else Texts(lines[..|lines| - 1]) + "\n" + Drop(lines[|lines| - 1], 9)
  }

  /** Without the characters that the two tools treat differently: NUL, and a
      carriage return before the line end. */
  predicate Printable(line: string) {
    0 as char !in line && RStrip(line, "\n") == RStrip(line, "\r\n")
  }

  lemma PrintableUnchanged(line: string)
    requires Printable(line)
    ensures Translated(Drop(line, 9)) == Drop(line, 9)
  {
    var d := Drop(line, 9);
    forall i | 0 <= i < |d| ensures d[i] != 0 as char {
      assert d[i] in line;
    }
  }

  predicate PlainLine(tag: string, line: string) {
    Of(tag, line) ==> |line| > 8 && line[8] in {'|', '>'} && Printable(line)
  }

  /** The lines of a subject are starts and continuations only, the first one a
      start. Lines are as they are read, with or without their line ends. */
  predicate Plain(tag: string, lines: seq<string>) {
    && (forall l :: l in lines ==> PlainLine(tag, l))
    && (Project(tag, lines) != [] ==> StartsLine(tag, Project(tag, lines)[0]))
  }

  /** No line has its line end any more. */
  ghost predicate Bare(lines: seq<string>) {
    forall l :: l in lines ==> RStrip(l, "\r\n") == l
  }

  /** The merged lines of a subject and what has been printed for it. */
  ghost predicate InStep(tag: string, merged: Option<seq<string>>, out: string, first: bool) {
    && merged.Some? && (forall f :: f in merged.value ==> StartsLine(tag, f))
    && out == Texts(merged.value) && first == (merged.value == [])
  }

  lemma TextsSnoc(lines: seq<string>, line: string)
    ensures Texts(lines + [line]) == Texts(lines) + (if lines == [] then "" else "\n") + Drop(line, 9)
  {
    assert (lines + [line])[..|lines|] == lines;
    assert "" + "" + Drop(line, 9) == Drop(line, 9);
  }

  lemma NewLineInStep(tag: string, merged: seq<string>, out: string, first: bool, line: string)
    requires InStep(tag, Some(merged), out, first) && StartsLine(tag, line) && IsTag(tag)
    ensures InStep(tag, Step(merged, line), out + (if first then "" else "\n") + Drop(line, 9), false)
  {
    assert line[8] == (tag + "|")[8];
    assert Take(line, 3) == (tag + "|")[..3] == tag[..3];
    TextsSnoc(merged, line);
  }

  lemma ContinuationInStep(tag: string, merged: seq<string>, out: string, line: string)
    requires InStep(tag, Some(merged), out, false) && IsTag(tag)
    requires |line| > 8 && line[..8] == tag && line[8] == '>'
    ensures InStep(tag, Step(merged, line), out + Drop(line, 9), false)
  {
    var front, last, text := merged[..|merged| - 1], merged[|merged| - 1], Drop(line, 9);
    assert merged == front + [last] && StartsLine(tag, last);
    AppendSnoc(front, last, tag + "|", text);
    AppendKeepsStart(last, text, tag + "|");
    TextsSnoc(front, last);
    TextsSnoc(front, last + text);
    assert Drop(last + text, 9) == Drop(last, 9) + text;
    forall f | f in front ensures StartsLine(tag, f) {
      assert f in merged;
    }
    var sep := if front == [] then "" else "\n";
    assert Texts(front) + sep + (Drop(last, 9) + text) == Texts(front) + sep + Drop(last, 9) + text;
    hide Texts, Drop;
  }

  lemma StreamedSnoc(tag: string, front: seq<string>, line: string)
    requires PlainLine(tag, line) && RStrip(line, "\r\n") == line && |tag| == 8
    ensures !Of(tag, line) ==> Streamed(tag, front + [line]) == Streamed(tag, front)
    ensures Of(tag, line) ==> !Streamed(tag, front + [line]).1
    ensures Of(tag, line) ==>
      Streamed(tag, front + [line]).0 ==
        Streamed(tag, front).0 + Separator(line, Streamed(tag, front).1) + Drop(line, 9)
  {
    assert (front + [line])[..|front|] == front;
    if Of(tag, line) {
      PrintableUnchanged(line);
    }
    hide RStrip, Translated, Drop;
  }

  lemma MergeSnoc(own: seq<string>, line: string)
    requires Merge(own).Some?
    ensures Merge(own + [line]) == Step(Merge(own).value, line)
  {
    assert (own + [line])[..|own|] == own;
  }

  /** What Plain says about the last line. */
  lemma PlainLast(tag: string, lines: seq<string>)
    requires IsTag(tag) && Plain(tag, lines) && Bare(lines) && lines != []
    ensures var front, line := lines[..|lines| - 1], lines[|lines| - 1];
      && lines == front + [line] && Plain(tag, front) && Bare(front) && |tag| == 8
      && PlainLine(tag, line) && RStrip(line, "\r\n") == line
      && Project(tag, lines) == Project(tag, front) + (if Of(tag, line) then [line] else [])
      && (Of(tag, line) ==> |line| > 8 && line[8] in {'|', '>'})
      && (Of(tag, line) && line[8] == '>' ==> Project(tag, front) != [])
  {
    var front, line := lines[..|lines| - 1], lines[|lines| - 1];
    assert line in lines && lines == front + [line];
    PlainFront(tag, lines);
    if Of(tag, line) && line[8] == '>' {
      FirstStarts(tag, Project(tag, front), line);
    }
  }

  lemma {:induction false} StreamInStep(tag: string, lines: seq<string>)
    requires IsTag(tag) && Plain(tag, lines) && Bare(lines)
    ensures InStep(tag, Merge(Project(tag, lines)), Streamed(tag, lines).0, Streamed(tag, lines).1)
  {
    hide *;
    if lines == [] {
      NothingInStep(tag);
    } else {
      PlainLast(tag, lines);
      var front, line := lines[..|lines| - 1], lines[|lines| - 1];
      StreamInStep(tag, front);
      StreamedSnoc(tag, front, line);
      StepInStep(tag, front, line, Project(tag, front));
    }
  }

  lemma NothingInStep(tag: string)
    ensures InStep(tag, Merge(Project(tag, [])), Streamed(tag, []).0, Streamed(tag, []).1)
  {
  }

  lemma StepInStep(tag: string, front: seq<string>, line: string, own: seq<string>)
    requires IsTag(tag) && Plain(tag, front) && own == Project(tag, front)
    requires InStep(tag, Merge(own), Streamed(tag, front).0, Streamed(tag, front).1)
    requires Of(tag, line) ==> |line| > 8 && line[8] in {'|', '>'} && (line[8] == '>' ==> own != [])
    ensures Of(tag, line) ==>
      InStep(tag, Merge(own + [line]),
             Streamed(tag, front).0 + Separator(line, Streamed(tag, front).1) + Drop(line, 9), false)
    ensures InStep(tag, Merge(own + []), Streamed(tag, front).0, Streamed(tag, front).1)
  {
    assert own + [] == own;
    assert Merge(own).Some?;
    hide *;
    if Of(tag, line) {
      MergeSnoc(own, line);
      MergeEmptyIff(tag, front);
      OwnLineInStep(tag, Merge(own).value, Streamed(tag, front).0, Streamed(tag, front).1, line);
    }
  }

  lemma PlainFront(tag: string, lines: seq<string>)
    requires Plain(tag, lines) && lines != []
    ensures Plain(tag, lines[..|lines| - 1])
  {
    var front := lines[..|lines| - 1];
    if Project(tag, front) != [] {
      assert Project(tag, lines)[0] == Project(tag, front)[0];
    }
  }

  lemma FirstStarts(tag: string, before: seq<string>, line: string)
    requires |line| > 8 && line[8] == '>' && |tag| == 8
    ensures StartsLine(tag, (before + [line])[0]) ==> before != []
  {
    assert Take(line, 9)[8] == line[8] && (tag + "|")[8] == '|';
    if before == [] {
      assert (before + [line])[0] == line;
    }
  }

  lemma OwnLineInStep(tag: string, merged: seq<string>, out: string, first: bool, line: string)
    requires InStep(tag, Some(merged), out, first) && IsTag(tag) && Of(tag, line)
    requires |line| > 8 && line[8] in {'|', '>'} && (line[8] == '>' ==> merged != [])
    ensures InStep(tag, Step(merged, line),
                   out + Separator(line, first) + Drop(line, 9), false)
  {
    assert line[..8] == tag;
    if line[8] == '|' {
      assert Take(line, 9) == tag + "|";
      NewLineInStep(tag, merged, out, first, line);
    } else {
      ContinuationInStep(tag, merged, out, line);
      assert out + "" == out;
    }
    hide Step, Drop;
  }

  lemma {:induction false} MergeEmptyIff(tag: string, lines: seq<string>)
    requires IsTag(tag) && Plain(tag, lines) && Merge(Project(tag, lines)).Some?
    ensures Merge(Project(tag, lines)).value == [] <==> Project(tag, lines) == []
  {
    var own := Project(tag, lines);
    if own != [] {
      StartsKept(own, tag);
      assert StartsLine(tag, own[0]);
    }
  }

  // ----- line ends -----

  /** Stripping stops at the first character from the right that is to stay. */
  lemma {:induction false} StripKeeps(line: string, chars: string, i: nat)
    requires i < |line| && line[i] !in chars
    ensures |RStrip(line, chars)| > i
    decreases |line|
  {
    if line[|line| - 1] in chars {
      StripKeeps(line[..|line| - 1], chars, i);
    }
  }

  lemma {:induction false} StripTwice(line: string, chars: string)
    ensures RStrip(RStrip(line, chars), chars) == RStrip(line, chars)
    decreases |line|
  {
    if line != "" && line[|line| - 1] in chars {
      StripTwice(line[..|line| - 1], chars);
    }
  }

  /** No character of a tag is one of a line end. */
  lemma OfStripped(tag: string, line: string)
    requires IsTag(tag)
    ensures Of(tag, RStrip(line, "\r\n")) <==> Of(tag, line)
  {
    if Of(tag, line) {
      assert line[7] == tag[7];
      StripKeeps(line, "\r\n", 7);
    }
  }

  /** Without its line end a plain line is one still and gives the same text. */
  lemma PlainStripped(tag: string, line: string)
    requires IsTag(tag) && PlainLine(tag, line)
    ensures var bare := RStrip(line, "\r\n");
      && PlainLine(tag, bare) && RStrip(bare, "\r\n") == bare
      && (Of(tag, bare) <==> Of(tag, line)) && (StartsLine(tag, line) ==> StartsLine(tag, bare))
      && Selected(tag, bare) == Selected(tag, line)
      && (Selected(tag, line) ==> bare[8] == line[8] && RStrip(bare, "\n") == RStrip(line, "\n"))
  {
    var bare := RStrip(line, "\r\n");
    OfStripped(tag, line);
    StripTwice(line, "\r\n");
    if Of(tag, line) {
      StripKeeps(line, "\r\n", 8);
      StripTwice(line, "\n");
    }
  }

  lemma StrippedSnoc(lines: seq<string>)
    requires lines != []
    ensures var front, last := lines[..|lines| - 1], lines[|lines| - 1];
      && Stripped(lines) == Stripped(front) + [RStrip(last, "\r\n")]
      && Stripped(lines)[..|lines| - 1] == Stripped(front)
  {
  }

  lemma {:induction false} ProjectStripped(tag: string, lines: seq<string>)
    requires IsTag(tag)
    ensures Project(tag, Stripped(lines)) == Stripped(Project(tag, lines))
  {
    if lines != [] {
      var front, last := lines[..|lines| - 1], lines[|lines| - 1];
      StrippedSnoc(lines);
      ProjectStripped(tag, front);
      OfStripped(tag, last);
      if Of(tag, last) {
        StrippedSnoc(Project(tag, lines));
      }
    }
  }

  /** Neither tool sees whether the last line of a file has its line end. */
  lemma {:induction false} StreamedStripped(tag: string, lines: seq<string>)
    requires IsTag(tag) && forall l :: l in lines ==> PlainLine(tag, l)
    ensures Streamed(tag, Stripped(lines)) == Streamed(tag, lines)
  {
    if lines != [] {
      var front, last := lines[..|lines| - 1], lines[|lines| - 1];
      StrippedSnoc(lines);
      StreamedStripped(tag, front);
      assert last in lines;
      PlainStripped(tag, last);
      hide RStrip, Translated, Stripped;
    }
  }

  lemma StrippedIsPlain(tag: string, lines: seq<string>)
    requires IsTag(tag) && Plain(tag, lines)
    ensures Plain(tag, Stripped(lines)) && Bare(Stripped(lines))
  {
    forall l | l in Stripped(lines) ensures PlainLine(tag, l) && RStrip(l, "\r\n") == l {
      var i :| 0 <= i < |lines| && l == Stripped(lines)[i];
      assert lines[i] in lines;
      PlainStripped(tag, lines[i]);
    }
    ProjectStripped(tag, lines);
    if Project(tag, lines) != [] {
      ProjectIsPart(tag, lines, Project(tag, lines)[0]);
      PlainStripped(tag, Project(tag, lines)[0]);
    }
  }

  lemma {:induction false} ProjectIsPart(tag: string, lines: seq<string>, line: string)
    requires line in Project(tag, lines)
    ensures line in lines
  {
    var front := lines[..|lines| - 1];
    if line in Project(tag, front) {
      ProjectIsPart(tag, front, line);
    }
  }

  /** For a subject with plain lines the streaming tool prints what the batch tool
      prints for it, without the prefixes. Lines are as they are read: both tools
      remove the line ends themselves. A missing parent of another subject stops
      the batch tool; merging the subject's lines alone never does. */
  lemma StreamIsMerge(tag: string, lines: seq<string>)
    requires IsTag(tag) && Plain(tag, lines)
    ensures var own, all := Merge(Project(tag, Stripped(lines))), Merge(Stripped(lines));
      && own.Some? && Streamed(tag, lines).0 == Texts(own.value)
      && (all.Some? ==> Streamed(tag, lines).0 == Texts(Project(tag, all.value)))
  {
    StrippedIsPlain(tag, lines);
    StreamedStripped(tag, lines);
    StreamInStep(tag, Stripped(lines));
    if Merge(Stripped(lines)).Some? {
      MergeProjects(tag, Stripped(lines));
    }
  }
}
