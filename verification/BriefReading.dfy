/** How a plan's lines, headings and Work Unit names are read. */
module BriefReading {
  import opened Base
  import opened Text
  import opened Brief

  // ---- Lines.

  /** A plan is read line by line: a return before the line end is no part of the
      line, and the text after the last line end is a line unless it is empty. */
  lemma LinesAre(first: string, rest: string)
    requires '\n' !in first
    ensures Lines(first + ['\n'] + rest) == [WithoutReturn(first)] + Lines(rest)
    ensures Lines(first) == if first == "" then [] else [first]
  {
    SplitFirst(first, '\n', rest);
    SplitWhole(first, '\n');
    var parts := SplitOn(rest, '\n');
    assert ([first] + parts)[1..] == parts;
  }

  lemma ReturnIsCut(line: string)
    ensures WithoutReturn(line + ['\r']) == line
    ensures (line == "" || line[|line| - 1] != '\r') ==> WithoutReturn(line) == line
  {
    assert (line + ['\r'])[..|line|] == line;
  }

  // ---- Blanks around a text.

  predicate NoBlankAround(s: string) {
    s == "" || (!IsSpace(s[0]) && !IsSpace(s[|s| - 1]))
  }

  lemma {:induction false} TrimStartIs(s: string) returns (blank: string)
    ensures s == blank + TrimStart(s) && IsBlank(blank)
    ensures TrimStart(s) == "" || !IsSpace(TrimStart(s)[0])
  {
    if s != "" && IsSpace(s[0]) {
      var rest := TrimStartIs(s[1..]);
      blank := [s[0]] + rest;
      assert s == [s[0]] + s[1..];
    } else {
      blank := "";
    }
  }

  lemma {:induction false} TrimEndIs(s: string) returns (blank: string)
    ensures s == TrimEnd(s) + blank && IsBlank(blank)
    ensures TrimEnd(s) == "" || !IsSpace(TrimEnd(s)[|TrimEnd(s)| - 1])
  {
    if s != "" && IsSpace(s[|s| - 1]) {
      var rest := TrimEndIs(s[..|s| - 1]);
      blank := rest + [s[|s| - 1]];
      assert s == s[..|s| - 1] + [s[|s| - 1]];
    } else {
      blank := "";
    }
  }

  /** A trimmed text is the text without the blanks around it. */
  lemma TrimIs(s: string) returns (before: string, after: string)
    ensures s == before + Trim(s) + after && IsBlank(before) && IsBlank(after)
    ensures NoBlankAround(Trim(s))
  {
    before := TrimStartIs(s);
    after := TrimEndIs(TrimStart(s));
    var kept := Trim(s);
    if kept != "" {
      assert TrimStart(s)[0] == kept[0];
    }
  }

  lemma {:induction false} TrimStartBlank(before: string, s: string)
    requires IsBlank(before) && (s == "" || !IsSpace(s[0]))
    ensures TrimStart(before + s) == s
  {
    if before == "" {
      assert before + s == s;
    } else {
      assert (before + s)[1..] == before[1..] + s;
      TrimStartBlank(before[1..], s);
    }
  }

  // ---- Headings.

  lemma {:induction false} HashesAre(line: string, n: nat)
    ensures Hashes(line) == n <==>
      n <= |line| && (forall k :: 0 <= k < n ==> line[k] == '#') && (n < |line| ==> line[n] != '#')
  {
    if line != "" && line[0] == '#' {
      if n > 0 {
        HashesAre(line[1..], n - 1);
        assert forall k :: 0 < k < |line| ==> line[k] == line[1..][k - 1];
      }
    }
  }

  /** A line is a heading of level `n` exactly when `n` hashes and a space open it. */
  lemma HeadingExactly(line: string, n: nat)
    ensures Heading(line).Some? && Heading(line).value.level == n <==>
      0 < n < |line| && (forall k :: 0 <= k < n ==> line[k] == '#') && line[n] == ' '
    ensures Heading(line).Some? && Heading(line).value.level == n ==> Heading(line).value.text == Trim(line[n..])
  {
    HashesFit(line);
    HashesAre(line, n);
  }

  /** It starts a Work Unit when its level is 3 or 4 and its text names one, and it
      ends the sections of its own level and of the lower ones. */
  lemma LevelsExactly(line: string, level: nat)
    ensures WuLevel(line) == Some(level) <==>
      (level == 3 || level == 4) && exists text ::
        Heading(line) == Some(HeadingLine(level, text)) && SplitWu(text).Some?
    ensures Closes(line, level) <==> exists h :: Heading(line) == Some(h) && h.level <= level
  {
  }

  // ---- Names.

  lemma IdCharsAre(c: char)
    ensures IsIdChar(c) <==>
      || c in "abcdefghijklmnopqrstuvwxyz" || c in "ABCDEFGHIJKLMNOPQRSTUVWXYZ" || c in "0123456789" || c == '.'
  {
  }

  predicate IsRef(ref: string) {
    ref != "" && forall k :: 0 <= k < |ref| ==> IsIdChar(ref[k])
  }

  lemma {:induction false} IdLengthIs(ref: string, tail: string)
    requires (forall k :: 0 <= k < |ref| ==> IsIdChar(ref[k])) && (tail == "" || !IsIdChar(tail[0]))
    ensures IdLength(ref + tail) == |ref|
  {
    if ref == "" {
      assert ref + tail == tail;
    } else {
      assert (ref + tail)[1..] == ref[1..] + tail;
      IdLengthIs(ref[1..], tail);
    }
  }

  lemma {:induction false} IdPart(s: string)
    ensures var n := IdLength(s);
      (forall k :: 0 <= k < n ==> IsIdChar(s[k])) && (n < |s| ==> !IsIdChar(s[n]))
  {
    if s != "" && IsIdChar(s[0]) {
      IdPart(s[1..]);
      assert forall k :: 0 < k < |s| ==> s[k] == s[1..][k - 1];
    }
  }

  predicate IsMarks(s: string) {
    forall k :: 0 <= k < |s| ==> s[k] == ':' || s[k] == '-' || s[k] == ' ' || s[k] == '\t'
  }

  lemma {:induction false} MarksAreSkipped(marks: string, title: string)
    requires IsMarks(marks) && (title == "" || !IsMarks([title[0]]))
    ensures SkipMarks(marks + title) == title
  {
    if marks == "" {
      assert marks + title == title;
      assert title != "" ==> [title[0]][0] == title[0];
    } else {
      assert (marks + title)[1..] == marks[1..] + title;
      MarksAreSkipped(marks[1..], title);
    }
  }

  /** A text names a Work Unit exactly when it starts with the prefix and at least
      one character of an id. */
  lemma SplitWuExactly(text: string)
    ensures SplitWu(text).Some? <==> exists ref, tail :: IsRef(ref) && text == WU_PREFIX + ref + tail
  {
    if SplitWu(text).Some? {
      var rest := text[|WU_PREFIX|..];
      var n := IdLength(rest);
      IdPart(rest);
      assert IsRef(rest[..n]) && text == WU_PREFIX + rest[..n] + rest[n..];
    }
    if ref, tail :| IsRef(ref) && text == WU_PREFIX + ref + tail {
      assert text[..|WU_PREFIX|] == WU_PREFIX && text[|WU_PREFIX|..] == ref + tail;
      assert (ref + tail)[0] == ref[0] && IsIdChar(ref[0]);
    }
  }

  /** The id is the prefix and all the id characters after it; the title is the rest
      without the marks between them and the blanks around it. */
  lemma NameReadsBack(ref: string, marks: string, title: string)
    requires IsRef(ref) && IsMarks(marks) && NoBlankAround(title)
    requires title != "" ==> !IsMarks([title[0]]) && (marks == "" ==> !IsIdChar(title[0]))
    ensures SplitWu(WU_PREFIX + ref + marks + title) == Some((WU_PREFIX + ref, title))
  {
    var (text, tail) := (WU_PREFIX + ref + marks + title, marks + title);
    assert text == WU_PREFIX + (ref + tail) && text[..|WU_PREFIX|] == WU_PREFIX && text[|WU_PREFIX|..] == ref + tail;
    IdLengthIs(ref, tail);
    assert (ref + tail)[..|ref|] == ref && (ref + tail)[|ref|..] == tail;
    MarksAreSkipped(marks, title);
    TrimOfTrimmed(title);
  }

  lemma TrimOfTrimmed(s: string)
    requires NoBlankAround(s)
    ensures Trim(s) == s
  {
  }

  // ---- Sections.

  /** A Work Unit has the id and title of its heading, and the text from there to the
      end of its section without the blanks after it. */
  lemma WuSays(lines: seq<string>, r: Range) returns (blank: string)
    requires r.start < r.end <= |lines| && WuLevel(lines[r.start]).Some?
    ensures var wu := WuOf(lines, r);
      && SplitWu(Heading(lines[r.start]).value.text) == Some((wu.id, wu.title))
      && Join(lines[r.start..r.end], '\n') == wu.section + blank && IsBlank(blank)
      && (wu.section == "" || !IsSpace(wu.section[|wu.section| - 1]))
  {
    blank := TrimEndIs(Join(lines[r.start..r.end], '\n'));
  }

  // ---- The block of facts.

  predicate IsLine(s: string) {
    '\n' !in s && (s == "" || s[|s| - 1] != '\r')
  }

  lemma {:induction false} JoinedLines(lines: seq<string>)
    requires lines != [] && forall k :: 0 <= k < |lines| ==> IsLine(lines[k])
    ensures Lines(Join(lines, '\n') + ['\n']) == lines
  {
    var first := lines[0];
    ReturnIsCut(first);
    if |lines| == 1 {
      LinesAre(first, "");
      assert first + ['\n'] + "" == first + ['\n'];
      assert Lines("") == [];
      assert lines == [first];
    } else {
      var rest := Join(lines[1..], '\n') + ['\n'];
      JoinedLines(lines[1..]);
      LinesAre(first, rest);
      assert Join(lines, '\n') + ['\n'] == first + ['\n'] + rest;
      assert lines == [first] + lines[1..];
    }
  }

  lemma UnderHeading(heading: string, body: string)
    requires IsLine(heading)
    ensures Lines(['\n'] + heading + ['\n'] + ['\n'] + body) == ["", heading, ""] + Lines(body)
  {
    var (empty, below) := ("", ['\n'] + body);
    LinesAre(empty, body);
    LinesAre(heading, below);
    LinesAre(empty, heading + ['\n'] + below);
    ReturnIsCut(heading);
    assert empty + ['\n'] + body == below;
    assert empty + ['\n'] + (heading + ['\n'] + below) == ['\n'] + heading + ['\n'] + ['\n'] + body;
  }

  /** The block is an empty line, its heading, an empty line, and one line for each
      fact, in order. */
  lemma BlockReadsBack(facts: seq<string>, n: nat, heading: string)
    requires heading == "## Callers" && 0 < n <= |facts| && forall k :: 0 <= k < n ==> IsLine(facts[k])
    ensures Lines(Block(facts, n)) == ["", heading, ""] + facts[..n]
  {
    var body := Join(facts[..n], '\n') + ['\n'];
    JoinedLines(facts[..n]);
    UnderHeading(heading, body);
    assert Block(facts, n) == ['\n'] + heading + ['\n'] + ['\n'] + body;
  }
}
