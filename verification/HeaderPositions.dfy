/** Where the licence header goes, stated on the text itself rather than on the scanners. */
module HeaderPositions {
  import opened LicenseHeaders
  import opened Options
  import opened SafePaths
  import opened Sequences

  // ----- The patterns

  ghost predicate OneLine(s: string) {
    '\n' !in s
  }

  ghost predicate AllBlank(s: string) {
    forall i :: 0 <= i < |s| ==> s[i] == ' ' || s[i] == '\t'
  }

  ghost predicate IsDirective(s: string) {
    s == "\"use client\"" || s == "'use client'" || s == "\"use server\"" || s == "'use server'"
  }

  ghost predicate OpensTagLine(s: string) {
    "//go:build" <= s || "// +build" <= s
  }

  /** The two lines of a short header. */
  ghost predicate IsShortHeader(lang: Language, h: string) {
    var sign := if lang.Python? then "#" else "//";
    exists rest :: OneLine(rest)
      && h == (sign + " SPDX-FileCopyrightText:") + rest + "\n" + (sign + " SPDX-License-Identifier: Apache-2.0\n")
  }

  ghost predicate IsShebang(a: string) {
    exists rest :: OneLine(rest) && a == "#!" + rest + "\n"
  }

  ghost predicate IsDirectiveLine(a: string) {
    exists x, d, y, semicolon, z :: AllBlank(x) && IsDirective(d) && AllBlank(y) && AllBlank(z)
      && (semicolon == "" || semicolon == ";") && a == x + (d + (y + (semicolon + (z + "\n"))))
  }

  ghost predicate AreTagLines(a: string)
    decreases |a|
  {
    a == "" || exists first, rest :: OneLine(first) && OpensTagLine(first) && a == first + ("\n" + rest)
                                  && |rest| < |a| && AreTagLines(rest)
  }

  /** What the three patterns allow in front of a short header. */
  ghost predicate IsPreamble(lang: Language, a: string) {
    match lang
    case Python => a == "" || IsShebang(a)
    case JsTs => a == "" || IsDirectiveLine(a)
    case Go => AreTagLines(a) || (a != "" && a[|a| - 1] == '\n' && AreTagLines(a[..|a| - 1]))
  }

  /** The text matches the pattern of its language: preamble, short header, anything. */
  ghost predicate Matches(lang: Language, content: string, a: string, h: string, b: string) {
    content == a + (h + b) && IsPreamble(lang, a) && IsShortHeader(lang, h)
  }

  // ----- The scanners find the patterns

  lemma FirstLineOf(first: string, rest: string)
    requires OneLine(first)
    ensures FirstLine(first + ("\n" + rest)) == Some(first + "\n")
  {
    var s := first + ("\n" + rest);
    assert s[|first|] == '\n' && s[..|first|] == first;
    FirstIndexIs(s, '\n', |first|);
    assert s[..|first| + 1] == first + "\n";
  }

  lemma FirstLineParts(s: string) returns (first: string, rest: string)
    requires FirstLine(s).Some?
    ensures OneLine(first) && s == first + ("\n" + rest) && FirstLine(s) == Some(first + "\n")
  {
    var i := FirstIndex(s, '\n');
    first, rest := s[..i], s[i + 1..];
    assert s[..i + 1] == first + "\n";
  }

  lemma Regroup(a: string, b: string, c: string)
    ensures a + (b + c) == (a + b) + c
  {
  }

  lemma Begins(a: string, b: string)
    ensures a <= a + b && (a + b)[..|a|] == a && (a + b)[|a|..] == b
  {
  }

  /** Two lines are found exactly where they are. */
  lemma TwoLinesFound(opening: string, second: string, rest: string, b: string)
    requires OneLine(opening) && OneLine(rest)
    ensures TwoLines(opening, second, opening + rest + "\n" + second + b) == Some(|opening + rest + "\n" + second|)
  {
    hide FirstLine;
    var first := opening + rest;
    var line, tail := first + "\n", second + b;
    FirstLineOf(first, tail);
    Regroup(first, "\n", tail);
    Regroup(line, second, b);
    Begins(line, tail);
    Begins(second, b);
    Regroup(opening, rest, "\n" + tail);
    Begins(opening, rest + ("\n" + tail));
  }

  lemma TwoLinesAre(opening: string, second: string, s: string) returns (rest: string)
    requires OneLine(opening) && TwoLines(opening, second, s).Some?
    ensures OneLine(rest) && s[..TwoLines(opening, second, s).value] == opening + rest + "\n" + second
  {
    var first, tail := FirstLineParts(s);
    OpeningFits(s, opening);
    assert first == s[..|first|];
    assert first[..|opening|] == s[..|opening|] == opening;
    rest := first[|opening|..];
    assert first == opening + rest;
    assert forall c :: c in rest ==> c in first;
    assert s[|first| + 1..] == tail && tail[..|second|] == second;
    assert s[..|first| + 1 + |second|] == first + "\n" + second;
  }

  lemma ShortHeaderFound(lang: Language, h: string, b: string)
    requires IsShortHeader(lang, h)
    ensures ShortHeader(lang, h + b) == Some(|h|)
  {
    hide TwoLines;
    var opening := CommentSign(lang) + " SPDX-FileCopyrightText:";
    var second := CommentSign(lang) + " SPDX-License-Identifier: Apache-2.0\n";
    var rest :| OneLine(rest) && h == opening + rest + "\n" + second;
    OpeningIsOneLine(lang);
    TwoLinesFound(opening, second, rest, b);
  }

  lemma OpeningIsOneLine(lang: Language)
    ensures OneLine(CommentSign(lang) + " SPDX-FileCopyrightText:")
  {
  }

  lemma ShortHeaderIs(lang: Language, s: string)
    requires ShortHeader(lang, s).Some?
    ensures IsShortHeader(lang, s[..ShortHeader(lang, s).value])
  {
    hide TwoLines;
    var opening := CommentSign(lang) + " SPDX-FileCopyrightText:";
    var second := CommentSign(lang) + " SPDX-License-Identifier: Apache-2.0\n";
    OpeningIsOneLine(lang);
    var rest := TwoLinesAre(opening, second, s);
    assert s[..ShortHeader(lang, s).value] == opening + rest + "\n" + second;
  }

  /** How a text with a short header at its start begins. */
  predicate BeginsAsHeader(lang: Language, s: string) {
    if lang.Python? then |s| > 2 && s[0] == '#' && s[1] == ' '
    else |s| > 4 && s[0] == '/' && s[1] == '/' && s[2] == ' ' && s[3] == 'S'
  }

  lemma ShortHeaderBegins(lang: Language, h: string, b: string)
    requires IsShortHeader(lang, h)
    ensures BeginsAsHeader(lang, h + b)
  {
    var sign, text := if lang.Python? then "#" else "//", " SPDX-FileCopyrightText:";
    var rest :| OneLine(rest) && h == (sign + text) + rest + "\n" + (sign + " SPDX-License-Identifier: Apache-2.0\n");
    assert |text| == 24 && text[0] == ' ' && text[1] == 'S';
    var s := h + b;
    assert s[..|sign| + |text|] == sign + text;
    assert forall i :: 0 <= i < |sign| + |text| ==> s[i] == (sign + text)[i];
    assert (sign + text)[|sign|] == text[0] && (sign + text)[|sign| + 1] == text[1];
    assert (sign + text)[0] == sign[0];
  }

  // ----- Python

  lemma PythonPreambleFound(a: string, tail: string)
    requires (a == "" || IsShebang(a)) && BeginsAsHeader(Python, tail)
    ensures Preamble(Python, a + tail) == |a|
  {
    var s := a + tail;
    if a == "" {
      assert s == tail && s[1] == ' ' != "#!"[1];
    } else {
      var rest :| OneLine(rest) && a == "#!" + rest + "\n";
      assert s == ("#!" + rest) + ("\n" + tail);
      FirstLineOf("#!" + rest, tail);
      assert s[..2] == "#!";
    }
  }

  lemma PythonPreambleIs(s: string)
    ensures IsPreamble(Python, s[..Preamble(Python, s)])
  {
    if StartsWith(s, "#!") && FirstLine(s).Some? {
      var first, rest := FirstLineParts(s);
      OpeningFits(s, "#!");
      assert first == s[..|first|] && first[..2] == s[..2] == "#!";
      assert first == "#!" + first[2..];
      assert s[..|first| + 1] == "#!" + first[2..] + "\n";
      assert forall c :: c in first[2..] ==> c in first;
    }
  }

  // ----- JavaScript and TypeScript

  lemma {:induction false} BlanksSkipped(x: string, s: string)
    requires AllBlank(x) && (s == "" || !IsBlank(s[0]))
    ensures SkipBlanks(x + s) == s
  {
    if x == "" {
      assert x + s == s;
    } else {
      assert (x + s)[0] == x[0] && (x + s)[1..] == x[1..] + s;
      BlanksSkipped(x[1..], s);
    }
  }

  lemma {:induction false} SkippedBlanks(s: string) returns (x: string)
    ensures AllBlank(x) && s == x + SkipBlanks(s)
  {
    if s != "" && IsBlank(s[0]) {
      var rest := SkippedBlanks(s[1..]);
      x := [s[0]] + rest;
    } else {
      x := "";
    }
  }

  lemma DirectiveBegins(d: string, s: string)
    requires IsDirective(d)
    ensures |d| == 12 && StartsWithDirective(d + s) && !IsBlank((d + s)[0]) && (d + s)[12..] == s
  {
    assert DIRECTIVES[0] == "\"use client\"" && DIRECTIVES[1] == "'use client'";
    assert DIRECTIVES[2] == "\"use server\"" && DIRECTIVES[3] == "'use server'";
    assert (d + s)[..12] == d;
    var i := if d == DIRECTIVES[0] then 0 else if d == DIRECTIVES[1] then 1 else if d == DIRECTIVES[2] then 2 else 3;
    assert StartsWith(d + s, DIRECTIVES[i]);
  }

  lemma DirectiveAt(s: string)
    requires StartsWithDirective(s)
    ensures |s| >= 12 && IsDirective(s[..12])
  {
    var i :| 0 <= i < |DIRECTIVES| && StartsWith(s, DIRECTIVES[i]);
    assert s[..12] == DIRECTIVES[i];
  }

  lemma JsPreambleFound(a: string, tail: string)
    requires (a == "" || IsDirectiveLine(a)) && BeginsAsHeader(JsTs, tail)
    ensures Preamble(JsTs, a + tail) == |a|
  {
    hide StartsWithDirective, IsDirective;
    var s := a + tail;
    if a == "" {
      assert s == tail && SkipBlanks(s) == s;
      NoDirective(s);
    } else {
      var x, d, y, semicolon, z :| AllBlank(x) && IsDirective(d) && AllBlank(y) && AllBlank(z)
        && (semicolon == "" || semicolon == ";") && a == x + (d + (y + (semicolon + (z + "\n"))));
      DirectiveLineFound(x, d, y, semicolon, z, tail);
      assert s == x + (d + (y + (semicolon + (z + ("\n" + tail)))));
    }
  }

  lemma NoDirective(s: string)
    requires s != "" && s[0] == '/'
    ensures !StartsWithDirective(s)
  {
    if StartsWithDirective(s) {
      DirectiveIs(s);
    }
  }

  lemma DirectiveLineFound(x: string, d: string, y: string, semicolon: string, z: string, tail: string)
    requires AllBlank(x) && IsDirective(d) && AllBlank(y) && AllBlank(z)
    requires semicolon == "" || semicolon == ";"
    ensures AfterDirectiveLine(x + (d + (y + (semicolon + (z + ("\n" + tail)))))) == Some(tail)
  {
    hide StartsWithDirective, IsDirective, AllBlank, SkipBlanks;
    var after := "\n" + tail;
    var line := y + (semicolon + (z + after));
    DirectiveBegins(d, line);
    BlanksSkipped(x, d + line);
    RestOfLineFound(y, semicolon, z, after);
    assert after[1..] == tail && after[..1] == "\n";
  }

  /** Behind the directive: blanks, a semicolon or none, blanks. */
  lemma RestOfLineFound(y: string, semicolon: string, z: string, after: string)
    requires AllBlank(y) && AllBlank(z) && (semicolon == "" || semicolon == ";")
    requires after != "" && after[0] == '\n'
    ensures
      var b := SkipBlanks(y + (semicolon + (z + after)));
      SkipBlanks(if StartsWith(b, ";") then b[1..] else b) == after
  {
    hide SkipBlanks;
    BlanksSkipped(z, after);
    BlanksSkipped("", after);
    assert "" + after == after;
    if semicolon == ";" {
      BlanksSkipped(y, ";" + (z + after));
      Begins(";", z + after);
    } else {
      assert "" + (z + after) == z + after;
      Regroup(y, z, after);
      BlanksSkipped(y + z, after);
    }
  }

  /** What the scanner of directive lines has gone through. */
  lemma ScannedDirectiveLine(s: string) returns (line: string)
    requires AfterDirectiveLine(s).Some?
    ensures IsDirectiveLine(line) && s == line + AfterDirectiveLine(s).value
  {
    hide StartsWithDirective, IsDirective, SkipBlanks, AllBlank;
    var a := SkipBlanks(s);
    var x := SkippedBlanks(s);
    DirectiveAt(a);
    var b := SkipBlanks(a[12..]);
    var y := SkippedBlanks(a[12..]);
    var semicolon, rest := if StartsWith(b, ";") then ";" else "", if StartsWith(b, ";") then b[1..] else b;
    var c := SkipBlanks(rest);
    var z := SkippedBlanks(rest);
    line := x + (a[..12] + (y + (semicolon + (z + "\n"))));
    assert IsDirectiveLine(line);
    FivePieces(s, x, a, y, b, semicolon, rest, z, c);
  }

  lemma FivePieces(s: string, x: string, a: string, y: string, b: string, semicolon: string, rest: string,
                   z: string, c: string)
    requires s == x + a && |a| >= 12 && a[12..] == y + b && "\n" <= c && rest == z + c
    requires if ";" <= b then semicolon == ";" && rest == b[1..] else semicolon == "" && rest == b
    ensures s == x + (a[..12] + (y + (semicolon + (z + "\n")))) + c[1..]
  {
    var tail := c[1..];
    assert c == "\n" + tail && a == a[..12] + a[12..] && b == semicolon + rest;
    Regroup(z, "\n", tail);
    Regroup(semicolon, z + "\n", tail);
    Regroup(y, semicolon + (z + "\n"), tail);
    Regroup(a[..12], y + (semicolon + (z + "\n")), tail);
    Regroup(x, a[..12] + (y + (semicolon + (z + "\n"))), tail);
  }

  lemma JsPreambleIs(s: string)
    ensures IsPreamble(JsTs, s[..Preamble(JsTs, s)])
  {
    hide AfterDirectiveLine, IsDirectiveLine;
    if AfterDirectiveLine(s).Some? {
      var line := ScannedDirectiveLine(s);
      assert s[..|line|] == line;
    }
  }

  // ----- Go

  lemma TagLineParts(a: string) returns (first: string, rest: string)
    requires AreTagLines(a) && a != ""
    ensures OneLine(first) && OpensTagLine(first) && a == first + ("\n" + rest) && |rest| < |a| && AreTagLines(rest)
  {
    first, rest :| OneLine(first) && OpensTagLine(first) && a == first + ("\n" + rest)
                && |rest| < |a| && AreTagLines(rest);
  }

  lemma TagLineMore(first: string, rest: string)
    requires OneLine(first) && OpensTagLine(first) && AreTagLines(rest)
    ensures AreTagLines(first + ("\n" + rest))
  {
    var a := first + ("\n" + rest);
    assert |rest| < |a|;
  }

  lemma NoTagLines()
    ensures AreTagLines("")
  {
  }

  lemma TagLineIsTag(first: string, rest: string)
    requires OpensTagLine(first)
    ensures IsBuildTag(first + rest)
  {
    var s := first + rest;
    assert "//go:build" <= first ==> s[..10] == first[..10];
    assert "// +build" <= first ==> s[..9] == first[..9];
  }

  lemma BuildTagsCut(s: string, line: string, rest: string)
    requires IsBuildTag(s) && FirstLine(s) == Some(line) && s[|line|..] == rest
    ensures BuildTags(s) == |line| + BuildTags(rest)
  {
  }

  lemma BuildTagsNext(first: string, rest: string)
    requires OneLine(first) && OpensTagLine(first)
    ensures BuildTags(first + ("\n" + rest)) == |first| + 1 + BuildTags(rest)
  {
    hide BuildTags, IsBuildTag, OpensTagLine, FirstLine, OneLine;
    FirstLineOf(first, rest);
    TagLineIsTag(first, "\n" + rest);
    Regroup(first, "\n", rest);
    Begins(first + "\n", rest);
    BuildTagsCut(first + ("\n" + rest), first + "\n", rest);
  }

  lemma {:induction false} TagsFound(a: string, tail: string)
    requires AreTagLines(a) && !IsBuildTag(tail)
    ensures BuildTags(a + tail) == |a|
    decreases |a|
  {
    hide AreTagLines, BuildTags, IsBuildTag, OpensTagLine, OneLine;
    if a == "" {
      assert a + tail == tail;
      NoBuildTags(tail);
    } else {
      var first, rest := TagLineParts(a);
      Regroup(first, "\n" + rest, tail);
      Regroup("\n", rest, tail);
      BuildTagsNext(first, rest + tail);
      TagsFound(rest, tail);
    }
  }

  lemma {:induction false} TagsAre(s: string)
    ensures AreTagLines(s[..BuildTags(s)])
    decreases |s|
  {
    hide AreTagLines, BuildTags, IsBuildTag, OpensTagLine, OneLine, FirstLine;
    if IsBuildTag(s) && FirstLine(s).Some? {
      var first, rest := FirstLineParts(s);
      Begins(first, "\n" + rest);
      TagOpensLine(s, first);
      TagsAre(rest);
      BuildTagsNext(first, rest);
      TagLineMore(first, rest[..BuildTags(rest)]);
      FrontOf(first, rest, BuildTags(rest));
    } else {
      NoBuildTags(s);
      NoTagLines();
      assert s[..0] == "";
    }
  }

  lemma FrontOf(first: string, rest: string, n: nat)
    requires n <= |rest|
    ensures (first + ("\n" + rest))[..|first| + 1 + n] == first + ("\n" + rest[..n])
  {
  }

  lemma TagOpensLine(s: string, first: string)
    requires IsBuildTag(s) && FirstLine(s) == Some(first + "\n") && first <= s
    ensures OpensTagLine(first)
  {
    if StartsWith(s, "//go:build") {
      OpeningFits(s, "//go:build");
      assert first[..10] == s[..10];
    } else {
      OpeningFits(s, "// +build");
      assert first[..9] == s[..9];
    }
  }

  lemma NoTag(s: string)
    requires s != "" && (s[0] == '\n' || BeginsAsHeader(Go, s))
    ensures !IsBuildTag(s)
  {
    assert "//go:build"[2] == 'g' && "// +build"[3] == '+';
    assert "//go:build"[0] == '/' && "// +build"[0] == '/';
  }

  lemma GoPreamble(s: string)
    ensures Preamble(Go, s) == BuildTags(s) + if "\n" <= s[BuildTags(s)..] then 1 else 0
  {
  }

  lemma GoPreambleFound(a: string, tail: string)
    requires IsPreamble(Go, a) && BeginsAsHeader(Go, tail)
    ensures Preamble(Go, a + tail) == |a|
  {
    hide BuildTags, IsBuildTag, Preamble, AreTagLines;
    GoPreamble(a + tail);
    if AreTagLines(a) {
      NoTag(tail);
      TagsFound(a, tail);
      Begins(a, tail);
    } else {
      var tags, rest := a[..|a| - 1], "\n" + tail;
      NoTag(rest);
      assert a == tags + "\n";
      Regroup(tags, "\n", tail);
      TagsFound(tags, rest);
      Begins(tags, rest);
      Begins("\n", tail);
    }
  }

  lemma GoPreambleIs(s: string)
    ensures IsPreamble(Go, s[..Preamble(Go, s)])
  {
    hide BuildTags, AreTagLines;
    TagsAre(s);
    var tags := BuildTags(s);
    if StartsWith(s[tags..], "\n") {
      assert s[tags] == s[tags..][0] == '\n';
      assert s[..tags + 1][..tags] == s[..tags];
    }
  }

  // ----- Replacing

  lemma PreambleFound(lang: Language, a: string, h: string, b: string)
    requires IsPreamble(lang, a) && IsShortHeader(lang, h)
    ensures Preamble(lang, a + (h + b)) == |a|
  {
    ShortHeaderBegins(lang, h, b);
    match lang
    case Python => PythonPreambleFound(a, h + b);
    case JsTs => JsPreambleFound(a, h + b);
    case Go => GoPreambleFound(a, h + b);
  }

  lemma PreambleIs(lang: Language, s: string)
    ensures IsPreamble(lang, s[..Preamble(lang, s)])
  {
    match lang
    case Python => PythonPreambleIs(s);
    case JsTs => JsPreambleIs(s);
    case Go => GoPreambleIs(s);
  }

  /** A text that matches its pattern gets the header in place of the short one, and nothing
      else changes; there is only one way for it to match. */
  lemma MatchIsReplaced(lang: Language, content: string, a: string, h: string, b: string)
    requires Matches(lang, content, a, h, b)
    ensures ReplaceShortHeader(lang, content) == a + Header(lang) + b
    ensures a == content[..Preamble(lang, content)]
    ensures ShortHeader(lang, content[Preamble(lang, content)..]) == Some(|h|)
  {
    hide Header, ShortHeader, Preamble, IsPreamble, IsShortHeader;
    PreambleFound(lang, a, h, b);
    ShortHeaderFound(lang, h, b);
    assert content[|a|..] == h + b && content[..|a|] == a;
    assert content[|a| + |h|..] == b;
  }

  /** The scanners find a short header behind the preamble exactly when the text matches. */
  lemma FoundExactlyWhenMatching(lang: Language, content: string)
    ensures ShortHeader(lang, content[Preamble(lang, content)..]).Some?
       <==> exists a, h, b :: Matches(lang, content, a, h, b)
  {
    hide ShortHeader, Preamble, IsPreamble, IsShortHeader;
    var p := Preamble(lang, content);
    var n := ShortHeader(lang, content[p..]);
    if n.Some? {
      PreambleIs(lang, content);
      ShortHeaderIs(lang, content[p..]);
      var a, h, b := content[..p], content[p..][..n.value], content[p..][n.value..];
      assert content == a + (h + b);
      assert Matches(lang, content, a, h, b);
    } else {
      forall a, h, b ensures !Matches(lang, content, a, h, b) {
        if Matches(lang, content, a, h, b) {
          MatchIsReplaced(lang, content, a, h, b);
        }
      }
    }
  }

  ghost predicate HasSpdx(content: string) {
    Contains(content, "SPDX-License-Identifier")
  }

  ghost predicate HasApache(content: string) {
    Contains(content, "Licensed under the Apache License")
  }

  lemma MarksAre(content: string)
    ensures Has(content, SPDX_MARK) <==> HasSpdx(content)
    ensures Has(content, APACHE_MARK) <==> HasApache(content)
  {
    hide Has, Contains;
    HasIsContains(content, SPDX_MARK);
    HasIsContains(content, APACHE_MARK);
  }

  /** What happens to a text that bears a mark already: with both it is skipped; with the first
      alone its short header is replaced if it matches, and otherwise the file fails. */
  lemma MarkedText(lang: Language, content: string)
    ensures AddHeader(lang, content).Skipped? <==> HasSpdx(content) && HasApache(content)
    ensures AddHeader(lang, content).Failed? <==>
              HasSpdx(content) && !HasApache(content) && !exists a, h, b :: Matches(lang, content, a, h, b)
    ensures HasSpdx(content) && !HasApache(content) ==>
              forall a, h, b :: Matches(lang, content, a, h, b) ==>
                AddHeader(lang, content) == Added(a + Header(lang) + b)
  {
    hide Has, Header, ShortHeader, Preamble, Matches, HasSpdx, HasApache, InsertHeader;
    MarksAre(content);
    FailsExactlyWhenMisplaced(lang, content);
    FoundExactlyWhenMatching(lang, content);
    forall a, h, b | Matches(lang, content, a, h, b) ensures ReplaceShortHeader(lang, content) == a + Header(lang) + b {
      MatchIsReplaced(lang, content, a, h, b);
    }
  }

  // ----- Inserting

  /** The first thing in the file is a shebang, a directive or a build tag. */
  ghost predicate Opens(lang: Language, content: string) {
    match lang
    case Python => "#!" <= content
    case JsTs => exists lead, d, rest :: (forall i :: 0 <= i < |lead| ==> IsSpace(lead[i])) && IsDirective(d)
                                     && content == lead + (d + rest)
    case Go => OpensTagLine(content)
  }

  lemma {:induction false} LeadStripped(lead: string, s: string)
    requires (forall i :: 0 <= i < |lead| ==> IsSpace(lead[i])) && s != "" && !IsSpace(s[0])
    ensures StripLeft(lead + s, IsSpace) == s
  {
    if lead == "" {
      assert lead + s == s;
    } else {
      assert (lead + s)[0] == lead[0] && (lead + s)[1..] == lead[1..] + s;
      LeadStripped(lead[1..], s);
    }
  }

  lemma {:induction false} StripRightKeepsFront(s: string, n: nat)
    requires 0 < n <= |s| && !IsSpace(s[n - 1])
    ensures s[..n] <= StripRight(s, IsSpace)
  {
    if IsSpace(s[|s| - 1]) {
      StripRightKeepsFront(s[..|s| - 1], n);
      assert s[..|s| - 1][..n] == s[..n];
    }
  }

  lemma OpensIsHasPreamble(lang: Language, content: string)
    ensures HasPreamble(lang, content) <==> Opens(lang, content)
  {
    if lang.JsTs? {
      hide StartsWithDirective, IsDirective, Strip;
      if StartsWithDirective(Strip(content, IsSpace)) {
        PreambleOpens(content);
      }
      if Opens(lang, content) {
        var lead, d, rest :| (forall i :: 0 <= i < |lead| ==> IsSpace(lead[i])) && IsDirective(d)
                          && content == lead + (d + rest);
        OpenedHasPreamble(lead, d, rest);
      }
    }
  }

  lemma PreambleOpens(content: string)
    requires StartsWithDirective(Strip(content, IsSpace))
    ensures Opens(JsTs, content)
  {
    hide StartsWithDirective, IsDirective, IsSpace, StripLeft, Strip;
    StripBegins(content);
    StripLeftCut(content, IsSpace);
    var left := StripLeft(content, IsSpace);
    var lead := content[..|content| - |left|];
    DirectiveAt(left);
    assert content == lead + (left[..12] + left[12..]);
  }

  lemma OpenedHasPreamble(lead: string, d: string, rest: string)
    requires (forall i :: 0 <= i < |lead| ==> IsSpace(lead[i])) && IsDirective(d)
    ensures StartsWithDirective(Strip(lead + (d + rest), IsSpace))
  {
    hide StartsWithDirective, IsDirective, IsSpace, StripLeft, StripRight;
    var s := d + rest;
    DirectiveEnds(d, rest);
    LeadStripped(lead, s);
    StripRightKeepsFront(s, 12);
    var stripped := StripRight(s, IsSpace);
    assert s[..12] == d && stripped[..12] == s[..12];
    assert stripped == d + stripped[12..];
    DirectiveBegins(d, stripped[12..]);
  }

  lemma DirectiveEnds(d: string, rest: string)
    requires IsDirective(d)
    ensures |d| == 12 && !IsSpace((d + rest)[0]) && !IsSpace((d + rest)[11])
  {
  }

  lemma UnmarkedIsInserted(lang: Language, content: string)
    requires !HasSpdx(content)
    ensures AddHeader(lang, content) == Added(InsertHeader(lang, content))
  {
    hide Has, HasSpdx, HasApache, InsertHeader, ReplaceShortHeader;
    MarksAre(content);
  }

  /** An unmarked text that does not open with a shebang, directive or build tag: the header
      comes first, then the whole text. */
  lemma HeaderComesFirst(lang: Language, content: string)
    requires !HasSpdx(content) && !Opens(lang, content)
    ensures AddHeader(lang, content) == Added(Header(lang) + content)
  {
    hide Header, HasPreamble, Opens, HasSpdx, InsertAfterTags, InsertAfterFirstLine;
    UnmarkedIsInserted(lang, content);
    OpensIsHasPreamble(lang, content);
  }

  /** A Python text with a shebang, or a JavaScript or TypeScript text with a directive: the
      header comes right after the first line, which gets a newline if it has none. */
  lemma HeaderAfterFirstLine(lang: Language, content: string, first: string, rest: string)
    requires !lang.Go? && !HasSpdx(content) && Opens(lang, content)
    requires OneLine(first) && (content == first + ("\n" + rest) || (content == first && rest == ""))
    ensures AddHeader(lang, content) == Added(first + "\n" + Header(lang) + rest)
  {
    hide Header, HasPreamble, Opens, HasSpdx, InsertAfterTags;
    UnmarkedIsInserted(lang, content);
    OpensIsHasPreamble(lang, content);
    if content == first {
      assert FirstLine(content) == None;
      assert first + "\n" + Header(lang) + "" == first + "\n" + Header(lang);
    } else {
      FirstLineOf(first, rest);
      assert content[|first| + 1..] == rest;
    }
  }

  /** A Go text that opens with a build tag: the header comes right before the first line that
      is neither empty nor a build tag. */
  lemma HeaderAfterTags(content: string) returns (k: nat)
    requires !HasSpdx(content) && Opens(Go, content)
    ensures 0 < k <= |Split(content, '\n')|
    ensures forall i :: 0 <= i < k ==> Split(content, '\n')[i] == "" || OpensTagLine(Split(content, '\n')[i])
    ensures k < |Split(content, '\n')| ==>
              Split(content, '\n')[k] != "" && !OpensTagLine(Split(content, '\n')[k])
    ensures AddHeader(Go, content)
         == Added(Join(Split(content, '\n')[..k], '\n') + "\n" + Header(Go) + Join(Split(content, '\n')[k..], '\n'))
  {
    hide Header, HasSpdx, InsertAfterFirstLine, Split, Join;
    UnmarkedIsInserted(Go, content);
    FirstLineIsTag(content);
    k := LeadingTagLines(Split(content, '\n'));
  }
}
