/** Adding the licence header to one file's text. */
module LicenseHeaders {
  import opened Options
  import opened SafePaths
  import opened Sequences

  // ----- The header

  const SPDX_MARK := "SPDX-License-Identifier"
  const APACHE_MARK := "Licensed under the Apache License"

  const LINES_BETWEEN := [""]
  const LINES_BEFORE :=
    ["SPDX-FileCopyrightText: Copyright (c) 2024-2026 NVIDIA CORPORATION & AFFILIATES. All rights reserved."]
  const LINES_AFTER :=
    [ "you may not use this file except in compliance with the License.",
      "You may obtain a copy of the License at",
      "",
      "http://www.apache.org/licenses/LICENSE-2.0",
      "",
      "Unless required by applicable law or agreed to in writing, software",
      "distributed under the License is distributed on an \"AS IS\" BASIS,",
      "WITHOUT WARRANTIES OR CONDITIONS OF ANY KIND, either express or implied.",
      "See the License for the specific language governing permissions and",
      "limitations under the License." ]

  datatype Language = Python | JsTs | Go

  /** The lines as comment lines; an empty line keeps the comment sign only. */
  function Commented(sign: string, lines: seq<string>): string {
    if lines == [] then ""
    else sign + (if lines[0] == "" then "" else " " + lines[0]) + "\n" + Commented(sign, lines[1..])
  }

  /** The two marked lines, with any other lines around them. */
  function HeaderLines(sign: string, before: seq<string>, between: seq<string>, after: seq<string>): string {
    Commented(sign, before)
    + (sign + " " + SPDX_MARK + ": Apache-2.0\n")
    + Commented(sign, between)
    + (sign + " " + APACHE_MARK + ", Version 2.0 (the \"License\");\n")
    + Commented(sign, after)
  }

  function HeaderOf(lang: Language, before: seq<string>, between: seq<string>, after: seq<string>): string {
    if lang.Python? then HeaderLines("#", before, between, after)
    else "/*\n" + HeaderLines(" *", before, between, after) + " */\n"
  }

  function Header(lang: Language): string {
    HeaderOf(lang, LINES_BEFORE, LINES_BETWEEN, LINES_AFTER)
  }

  // ----- Looking at a text

  ghost predicate Contains(s: string, pattern: string) {
    exists a, b :: s == a + pattern + b
  }

  predicate StartsWith(s: string, prefix: string) {
    prefix <= s
  }

  /** `pattern in s` */
  predicate Has(s: string, pattern: string) {
    pattern <= s || (s != "" && Has(s[1..], pattern))
  }

  lemma {:induction false} HasMeansContains(s: string, pattern: string)
    requires Has(s, pattern)
    ensures Contains(s, pattern)
  {
    if pattern <= s {
      assert s == "" + pattern + s[|pattern|..];
    } else {
      HasMeansContains(s[1..], pattern);
      var a, b :| s[1..] == a + pattern + b;
      assert s == ([s[0]] + a) + pattern + b;
    }
  }

  lemma {:induction false} HasMiddle(a: string, pattern: string, b: string)
    ensures Has(a + pattern + b, pattern)
  {
    var s := a + pattern + b;
    if a == "" {
      assert s[..|pattern|] == pattern;
    } else if !(pattern <= s) {
      assert s[1..] == a[1..] + pattern + b;
      HasMiddle(a[1..], pattern, b);
    }
  }

  /** `in` on strings is having the pattern somewhere in the middle. */
  lemma HasIsContains(s: string, pattern: string)
    ensures Has(s, pattern) <==> Contains(s, pattern)
  {
    if Has(s, pattern) {
      HasMeansContains(s, pattern);
    }
    forall a, b | s == a + pattern + b ensures Has(s, pattern) {
      HasMiddle(a, pattern, b);
    }
  }

  predicate HasFullHeader(content: string) {
    Has(content, SPDX_MARK) && Has(content, APACHE_MARK)
  }

  predicate HasShortHeader(content: string) {
    Has(content, SPDX_MARK) && !Has(content, APACHE_MARK)
  }

  /** The first line of `s`, newline included, if `s` has a newline at all. */
  function FirstLine(s: string): Option<string> {
    if '\n' in s then Some(s[..FirstIndex(s, '\n') + 1]) else None
  }

  // ----- The short header and what may precede it

  function CommentSign(lang: Language): string {
    if lang.Python? then "#" else "//"
  }

  /** The length of two lines at the start of `s`: one that begins with `opening`, then `second`. */
  function TwoLines(opening: string, second: string, s: string): (n: Option<nat>)
    ensures n.Some? ==> n.value <= |s|
  {
    var first := FirstLine(s);
    if first.Some? && StartsWith(s, opening) && StartsWith(s[|first.value|..], second)
    then Some(|first.value| + |second|)
    else None
  }

  /** The length of the short two-line header at the start of `s`. */
  function ShortHeader(lang: Language, s: string): (n: Option<nat>)
    ensures n.Some? ==> n.value <= |s|
  {
    TwoLines(CommentSign(lang) + " SPDX-FileCopyrightText:",
             CommentSign(lang) + " SPDX-License-Identifier: Apache-2.0\n", s)
  }

  const DIRECTIVES := ["\"use client\"", "'use client'", "\"use server\"", "'use server'"]

  predicate StartsWithDirective(s: string) {
    exists i :: 0 <= i < |DIRECTIVES| && StartsWith(s, DIRECTIVES[i])
  }

  predicate IsBlank(c: char) {
    c == ' ' || c == '\t'
  }

  /** `s` without leading spaces and tabs. */
  function SkipBlanks(s: string): (r: string)
    ensures |r| <= |s|
  {
    if s != "" && IsBlank(s[0]) then SkipBlanks(s[1..]) else s
  }

  /** What follows a directive line at the start of `s`: blanks, the directive, blanks, an
      optional semicolon, blanks and the newline. */
  function AfterDirectiveLine(s: string): (r: Option<string>)
    ensures r.Some? ==> |r.value| <= |s|
  {
    var a := SkipBlanks(s);
    if !StartsWithDirective(a) then None
    else
      var b := SkipBlanks(a[12..]);
      var c := SkipBlanks(if StartsWith(b, ";") then b[1..] else b);
      if StartsWith(c, "\n") then Some(c[1..]) else None
  }

  predicate IsBuildTag(s: string) {
    StartsWith(s, "//go:build") || StartsWith(s, "// +build")
  }

  /** The length of the leading run of complete build-tag lines. */
  function BuildTags(s: string): (n: nat)
    ensures n <= |s|
    decreases |s|
  {
    var first := FirstLine(s);
    if IsBuildTag(s) && first.Some? then |first.value| + BuildTags(s[|first.value|..]) else 0
  }

  /** How much of `s` the preamble of the language's pattern takes. */
  function Preamble(lang: Language, s: string): (n: nat)
    ensures n <= |s|
  {
    match lang
    case Python => if StartsWith(s, "#!") && FirstLine(s).Some? then |FirstLine(s).value| else 0
    case JsTs => if AfterDirectiveLine(s).Some? then |s| - |AfterDirectiveLine(s).value| else 0
    case Go =>
      var tags := BuildTags(s);
      if StartsWith(s[tags..], "\n") then tags + 1 else tags
  }

  /** `_replace_short_header`: the text unchanged if the short header is not at the preamble. */
  function ReplaceShortHeader(lang: Language, content: string): string {
    var p := Preamble(lang, content);
    var n := ShortHeader(lang, content[p..]);
    if n == None then content else content[..p] + Header(lang) + content[p + n.value..]
  }

  // ----- Inserting a header

  /** `lines[0] + "\n" + header + rest`, split at the first newline. */
  function InsertAfterFirstLine(content: string, header: string): string {
    match FirstLine(content)
    case Some(line) => line + header + content[|line|..]
    case None => content + "\n" + header
  }

  /** The number of leading lines that are build tags or empty. */
  function LeadingTagLines(lines: seq<string>): (n: nat)
    ensures n <= |lines|
    ensures forall i :: 0 <= i < n ==> IsBuildTag(lines[i]) || lines[i] == ""
    ensures n < |lines| ==> !IsBuildTag(lines[n]) && lines[n] != ""
  {
    if lines != [] && (IsBuildTag(lines[0]) || lines[0] == "") then 1 + LeadingTagLines(lines[1..]) else 0
  }

  function InsertAfterTags(content: string, header: string): string {
    var lines := Split(content, '\n');
    var n := LeadingTagLines(lines);
    Join(lines[..n], '\n') + "\n" + header + Join(lines[n..], '\n')
  }

  /** The line after which the header goes: a shebang, a directive or Go build tags. */
  predicate HasPreamble(lang: Language, content: string) {
    match lang
    case Python => StartsWith(content, "#!")
    case JsTs => StartsWithDirective(Strip(content, IsSpace))
    case Go => IsBuildTag(content)
  }

  function InsertHeader(lang: Language, content: string): string {
    if !HasPreamble(lang, content) then Header(lang) + content
    else if lang.Go? then InsertAfterTags(content, Header(lang))
    else InsertAfterFirstLine(content, Header(lang))
  }

  datatype Result = Added(text: string) | Skipped | Failed

  /** `add_header_to_python`, `_js_ts` and `_go` on a text that could be read. */
  function AddHeader(lang: Language, content: string): Result {
    if HasFullHeader(content) then Skipped
    else if HasShortHeader(content) then
      var replaced := ReplaceShortHeader(lang, content);
      if replaced == content then Failed else Added(replaced)
    else Added(InsertHeader(lang, content))
  }

  // ----- The loop over the lines of a Go file

  method CountLeadingTagLines(lines: seq<string>) returns (buildTagEnd: nat)
    ensures buildTagEnd == LeadingTagLines(lines)
  {
    buildTagEnd := 0;
    for i := 0 to |lines|
      invariant buildTagEnd == i
      invariant LeadingTagLines(lines) == i + LeadingTagLines(lines[i..])
    {
      if IsBuildTag(lines[i]) || lines[i] == "" {
        buildTagEnd := i + 1;
        assert lines[i..][1..] == lines[i + 1..];
      } else {
        break;
      }
    }
  }

  // ----- A header is complete

  lemma ContainsMore(a: string, s: string, b: string, pattern: string)
    requires Contains(s, pattern)
    ensures Contains(a + s + b, pattern)
  {
    var x, y :| s == x + pattern + y;
    assert a + s + b == (a + x) + pattern + (y + b);
  }

  lemma TwoMarks(a: string, lead: string, m: string, x: string, b: string, n: string, y: string, c: string)
    ensures Contains(a + (lead + m + x) + b + (lead + n + y) + c, m)
    ensures Contains(a + (lead + m + x) + b + (lead + n + y) + c, n)
  {
    var all := a + (lead + m + x) + b + (lead + n + y) + c;
    assert all == (a + lead) + m + (x + b + (lead + n + y) + c);
    assert all == (a + (lead + m + x) + b + lead) + n + (y + c);
  }

  lemma HeaderLinesComplete(sign: string, before: seq<string>, between: seq<string>, after: seq<string>)
    ensures Contains(HeaderLines(sign, before, between, after), SPDX_MARK)
    ensures Contains(HeaderLines(sign, before, between, after), APACHE_MARK)
  {
    hide Commented, Contains;
    TwoMarks(Commented(sign, before), sign + " ", SPDX_MARK, ": Apache-2.0\n", Commented(sign, between),
             APACHE_MARK, ", Version 2.0 (the \"License\");\n", Commented(sign, after));
  }

  /** Every text around a header has a full header, whatever the unmarked lines say. */
  lemma AnyHeaderIsFull(lang: Language, before: seq<string>, between: seq<string>, after: seq<string>,
                        prefix: string, suffix: string)
    ensures HasFullHeader(prefix + HeaderOf(lang, before, between, after) + suffix)
  {
    hide Contains, HeaderLines, Has;
    var sign := if lang.Python? then "#" else " *";
    var lines, header := HeaderLines(sign, before, between, after), HeaderOf(lang, before, between, after);
    HeaderLinesComplete(sign, before, between, after);
    if !lang.Python? {
      ContainsMore("/*\n", lines, " */\n", SPDX_MARK);
      ContainsMore("/*\n", lines, " */\n", APACHE_MARK);
    }
    ContainsMore(prefix, header, suffix, SPDX_MARK);
    ContainsMore(prefix, header, suffix, APACHE_MARK);
    HasIsContains(prefix + header + suffix, SPDX_MARK);
    HasIsContains(prefix + header + suffix, APACHE_MARK);
  }

  lemma WithHeaderIsFull(lang: Language, prefix: string, suffix: string)
    ensures HasFullHeader(prefix + Header(lang) + suffix)
  {
    hide HeaderOf, HasFullHeader;
    AnyHeaderIsFull(lang, LINES_BEFORE, LINES_BETWEEN, LINES_AFTER, prefix, suffix);
  }

  /** The lines of the header, without comment signs. */
  const LICENSE_LINES :=
    LINES_BEFORE + [SPDX_MARK + ": Apache-2.0"] + LINES_BETWEEN
    + [APACHE_MARK + ", Version 2.0 (the \"License\");"] + LINES_AFTER

  /** Each line behind the sign, and a blank between if the line is not empty. */
  function Signed(sign: string, lines: seq<string>): seq<string> {
    seq(|lines|, i requires 0 <= i < |lines| => if lines[i] == "" then sign else sign + " " + lines[i])
  }

  lemma {:induction false} CommentedAppend(sign: string, a: seq<string>, b: seq<string>)
    ensures Commented(sign, a + b) == Commented(sign, a) + Commented(sign, b)
  {
    if a == [] {
      assert a + b == b;
    } else {
      assert (a + b)[1..] == a[1..] + b;
      CommentedAppend(sign, a[1..], b);
    }
  }

  lemma {:induction false} CommentedIsJoin(sign: string, lines: seq<string>)
    ensures Commented(sign, lines) == Join(Signed(sign, lines) + [""], '\n')
  {
    if lines != [] {
      CommentedIsJoin(sign, lines[1..]);
      var rest := Signed(sign, lines[1..]) + [""];
      assert Signed(sign, lines) + [""] == [Signed(sign, lines)[0]] + rest;
      assert (Signed(sign, lines) + [""])[1..] == rest;
    }
  }

  lemma OneCommented(sign: string, line: string)
    requires line != ""
    ensures Commented(sign, [line]) == sign + " " + line + "\n"
  {
    assert [line][1..] == [];
  }

  /** The header is one comment that holds the licence lines and nothing else. */
  lemma HeaderIsComment(lang: Language)
    ensures Header(lang) ==
      if lang.Python? then Join(Signed("#", LICENSE_LINES) + [""], '\n')
      else "/*\n" + Join(Signed(" *", LICENSE_LINES) + [""], '\n') + " */\n"
  {
    hide Commented, Join, Signed;
    var sign := if lang.Python? then "#" else " *";
    HeaderLinesAre(sign, LINES_BEFORE, SPDX_MARK + ": Apache-2.0", LINES_BETWEEN,
                   APACHE_MARK + ", Version 2.0 (the \"License\");", LINES_AFTER);
    CommentedIsJoin(sign, LICENSE_LINES);
    MarkedLines(sign);
  }

  lemma HeaderLinesAre(sign: string, before: seq<string>, m: string, between: seq<string>, n: string,
                       after: seq<string>)
    requires m != "" && n != ""
    ensures Commented(sign, before + [m] + between + [n] + after)
         == Commented(sign, before) + (sign + " " + m + "\n") + Commented(sign, between) + (sign + " " + n + "\n")
            + Commented(sign, after)
  {
    hide Commented;
    OneCommented(sign, m);
    OneCommented(sign, n);
    CommentedAppend(sign, before, [m]);
    CommentedAppend(sign, before + [m], between);
    CommentedAppend(sign, before + [m] + between, [n]);
    CommentedAppend(sign, before + [m] + between + [n], after);
  }

  lemma MarkedLines(sign: string)
    ensures sign + " " + (SPDX_MARK + ": Apache-2.0") + "\n" == sign + " " + SPDX_MARK + ": Apache-2.0\n"
    ensures sign + " " + (APACHE_MARK + ", Version 2.0 (the \"License\");") + "\n"
         == sign + " " + APACHE_MARK + ", Version 2.0 (the \"License\");\n"
  {
    EndLine(sign + " ", SPDX_MARK, ": Apache-2.0");
    EndLine(sign + " ", APACHE_MARK, ", Version 2.0 (the \"License\");");
    assert ": Apache-2.0" + "\n" == ": Apache-2.0\n";
    assert ", Version 2.0 (the \"License\");" + "\n" == ", Version 2.0 (the \"License\");\n";
  }

  lemma EndLine(a: string, b: string, c: string)
    ensures a + (b + c) + "\n" == a + b + (c + "\n")
  {
  }

  // ----- What happens to the text

  lemma FirstLineCut(s: string, n: nat)
    requires n <= |s| && FirstLine(s).Some? && |FirstLine(s).value| <= n
    ensures FirstLine(s[..n]) == FirstLine(s)
  {
    var i := FirstIndex(s, '\n');
    assert s[..n][i] == '\n' && s[..n][..i] == s[..i];
    FirstIndexIs(s[..n], '\n', i);
    assert s[..n][..i + 1] == s[..i + 1];
  }

  lemma OpeningFits(s: string, opening: string)
    requires FirstLine(s).Some? && opening <= s && '\n' !in opening
    ensures |opening| < |FirstLine(s).value|
  {
    assert forall i :: 0 <= i < |opening| ==> s[i] == opening[i] && opening[i] in opening;
  }

  lemma TwoLinesCut(opening: string, second: string, s: string)
    requires TwoLines(opening, second, s).Some? && '\n' !in opening
    ensures TwoLines(opening, second, s[..TwoLines(opening, second, s).value]) == TwoLines(opening, second, s)
  {
    var n, first := TwoLines(opening, second, s).value, FirstLine(s).value;
    OpeningFits(s, opening);
    FirstLineCut(s, n);
    assert s[..n][..|opening|] == s[..|opening|] == opening;
    assert s[..n][|first|..] == s[|first|..][..|second|] == second;
  }

  /** A short header that is cut off at its end is still a short header. */
  lemma ShortHeaderCut(lang: Language, s: string)
    requires ShortHeader(lang, s).Some?
    ensures ShortHeader(lang, s[..ShortHeader(lang, s).value]) == ShortHeader(lang, s)
  {
    hide TwoLines;
    TwoLinesCut(CommentSign(lang) + " SPDX-FileCopyrightText:",
                CommentSign(lang) + " SPDX-License-Identifier: Apache-2.0\n", s);
  }

  /** The first line of a text begins with whatever the text begins with, newline excepted. */
  lemma {:induction false} SplitBegins(text: string, start: string)
    requires start <= text && '\n' !in start
    ensures start <= Split(text, '\n')[0]
  {
    if start != "" {
      assert text[0] == start[0] && start[0] in start;
      SplitBegins(text[1..], start[1..]);
    }
  }

  lemma ReplacedPreservesText(lang: Language, content: string) returns (prefix: string, removed: string, suffix: string)
    requires ShortHeader(lang, content[Preamble(lang, content)..]).Some?
    ensures ReplaceShortHeader(lang, content) == prefix + Header(lang) + suffix
    ensures content == prefix + removed + suffix && ShortHeader(lang, removed) == Some(|removed|)
  {
    hide Header, ShortHeader, Preamble;
    var p := Preamble(lang, content);
    var n := ShortHeader(lang, content[p..]).value;
    ShortHeaderCut(lang, content[p..]);
    prefix, removed, suffix := content[..p], content[p..][..n], content[p + n..];
  }

  lemma InsertedPreservesText(lang: Language, content: string) returns (prefix: string, suffix: string)
    ensures InsertHeader(lang, content) == prefix + Header(lang) + suffix
    ensures content == prefix + suffix || (suffix == "" && prefix == content + "\n")
  {
    hide Header, InsertAfterTags, StartsWithDirective;
    if !HasPreamble(lang, content) {
      prefix, suffix := "", content;
    } else if lang.Go? {
      prefix, suffix := TagsPreserveText(content, Header(lang));
    } else {
      match FirstLine(content)
      case Some(line) => prefix, suffix := line, content[|line|..];
      case None => prefix, suffix := content + "\n", "";
    }
  }

  /** A new header replaces the short one, or is put between two parts of the text, or comes
      after the whole text and a newline; nothing else changes. */
  lemma AddedPreservesText(lang: Language, content: string) returns (prefix: string, removed: string, suffix: string)
    requires AddHeader(lang, content).Added?
    ensures AddHeader(lang, content).text == prefix + Header(lang) + suffix
    ensures || content == prefix + removed + suffix
            || (removed == "" && suffix == "" && prefix == content + "\n")
    ensures removed == "" || ShortHeader(lang, removed) == Some(|removed|)
  {
    hide Header, Has, ShortHeader, Preamble, InsertHeader;
    if HasShortHeader(content) {
      prefix, removed, suffix := ReplacedPreservesText(lang, content);
    } else {
      removed := "";
      prefix, suffix := InsertedPreservesText(lang, content);
      assert prefix + "" + suffix == prefix + suffix;
    }
  }

  lemma TagsPreserveText(content: string, header: string) returns (prefix: string, suffix: string)
    requires IsBuildTag(content)
    ensures InsertAfterTags(content, header) == prefix + header + suffix
    ensures content == prefix + suffix || (suffix == "" && prefix == content + "\n")
  {
    var lines := Split(content, '\n');
    var n := LeadingTagLines(lines);
    FirstLineIsTag(content);
    JoinOfSplit(content, '\n');
    prefix, suffix := Join(lines[..n], '\n') + "\n", Join(lines[n..], '\n');
    if n < |lines| {
      JoinCut(lines, n, '\n');
    } else {
      assert lines[..n] == lines;
    }
  }

  lemma FirstLineIsTag(content: string)
    requires IsBuildTag(content)
    ensures IsBuildTag(Split(content, '\n')[0])
    ensures LeadingTagLines(Split(content, '\n')) > 0
  {
    if StartsWith(content, "//go:build") {
      SplitBegins(content, "//go:build");
    } else {
      SplitBegins(content, "// +build");
    }
  }

  /** An added header is complete: in any language, the next run skips the file. */
  lemma AddedIsFull(lang: Language, content: string)
    requires AddHeader(lang, content).Added?
    ensures HasFullHeader(AddHeader(lang, content).text)
    ensures forall other :: AddHeader(other, AddHeader(lang, content).text) == Skipped
  {
    hide Has, Header;
    var prefix, removed, suffix := AddedPreservesText(lang, content);
    WithHeaderIsFull(lang, prefix, suffix);
  }

  /** A file with a short header fails exactly when the header is not right after the preamble. */
  lemma FailsExactlyWhenMisplaced(lang: Language, content: string)
    ensures AddHeader(lang, content).Failed?
       <==> HasShortHeader(content) && ShortHeader(lang, content[Preamble(lang, content)..]) == None
  {
    hide ShortHeader, Preamble, Header, Has;
    var p := Preamble(lang, content);
    var n := ShortHeader(lang, content[p..]);
    if HasShortHeader(content) && n.Some? {
      WithHeaderIsFull(lang, content[..p], content[p + n.value..]);
    }
  }

  /** A shebang line stays first, with the header right after it. */
  lemma ShebangStaysFirst(content: string)
    requires StartsWith(content, "#!") && AddHeader(Python, content).Added?
    ensures
      var line := if FirstLine(content).Some? then FirstLine(content).value else content + "\n";
      StartsWith(AddHeader(Python, content).text, line + Header(Python))
  {
    hide Header, Has;
    if HasShortHeader(content) {
      assert content[0..] == content;
    }
  }

  // ----- Where a directive ends up

  lemma {:induction false} StripLeftCut(s: string, matching: char -> bool)
    ensures
      var n := |s| - |StripLeft(s, matching)|;
      n >= 0 && s[n..] == StripLeft(s, matching) && forall i :: 0 <= i < n ==> matching(s[i])
  {
    if s != "" && matching(s[0]) {
      StripLeftCut(s[1..], matching);
      var n := |s| - |StripLeft(s, matching)|;
      forall i | 0 <= i < n ensures matching(s[i]) {
        if i > 0 {
          assert s[i] == s[1..][i - 1];
        }
      }
    }
  }

  /** A directive fills twelve characters, begins with a quote and holds no newline. */
  lemma DirectiveIs(s: string)
    requires StartsWithDirective(s)
    ensures |s| >= 12 && (s[0] == '"' || s[0] == '\'') && '\n' !in s[..12]
  {
    var i :| 0 <= i < |DIRECTIVES| && StartsWith(s, DIRECTIVES[i]);
    assert s[..12] == DIRECTIVES[i];
  }

  lemma StripBegins(content: string)
    requires StartsWithDirective(Strip(content, IsSpace))
    ensures StartsWithDirective(StripLeft(content, IsSpace))
  {
    var left := StripLeft(content, IsSpace);
    StripRightEnd(left, IsSpace);
    var i :| 0 <= i < |DIRECTIVES| && StartsWith(Strip(content, IsSpace), DIRECTIVES[i]);
    assert left[..|DIRECTIVES[i]|] == DIRECTIVES[i];
    assert StartsWith(left, DIRECTIVES[i]);
  }

  /** The header goes after the first line, so a directive stays in front of it exactly when
      no newline comes before the directive. */
  lemma DirectiveStaysFirstWhen(content: string)
    requires HasPreamble(JsTs, content) && !HasFullHeader(content) && !HasShortHeader(content)
    ensures
      var lead := |content| - |StripLeft(content, IsSpace)|;
      && 0 <= lead <= |content| - 12 && StartsWithDirective(content[lead..])
      && (StartsWith(AddHeader(JsTs, content).text, content[..lead + 12]) <==> '\n' !in content[..lead])
  {
    hide Has, HeaderLines, StartsWithDirective, Strip;
    StripLeftCut(content, IsSpace);
    StripBegins(content);
    var lead := |content| - |StripLeft(content, IsSpace)|;
    DirectiveIs(content[lead..]);
    HeaderPosition(content, lead, Header(JsTs));
  }

  lemma HeaderPosition(content: string, lead: nat, header: string)
    requires lead + 12 <= |content| && StartsWith(header, "/*\n")
    requires forall i :: 0 <= i < lead ==> IsSpace(content[i])
    requires (content[lead] == '"' || content[lead] == '\'') && '\n' !in content[lead..][..12]
    ensures StartsWith(InsertAfterFirstLine(content, header), content[..lead + 12]) <==> '\n' !in content[..lead]
  {
    var text := InsertAfterFirstLine(content, header);
    assert content[..lead + 12] == content[..lead] + content[lead..][..12];
    if '\n' in content {
      var i := FirstIndex(content, '\n');
      if '\n' in content[..lead] {
        assert forall k :: 0 <= k < i ==> content[..i][k] == content[k] != '\n';
        assert text[i + 1] == header[0] == '/';
        assert content[..lead + 12][i + 1] == content[i + 1] != '/';
      } else {
        assert forall k :: 0 <= k < lead + 12 ==> content[..lead + 12][k] == content[k] != '\n';
        assert text[..i + 1] == content[..i + 1];
      }
    }
  }

  lemma {:induction false} HasNeedsRoom(s: string, pattern: string)
    requires |s| < |pattern|
    ensures !Has(s, pattern)
  {
    if s != "" {
      HasNeedsRoom(s[1..], pattern);
    }
  }

  /** A file that begins with an empty line and then the directive: the header goes between. */
  lemma DirectiveAfterEmptyLine()
    ensures AddHeader(JsTs, "\n\"use client\"\n") == Added("\n" + Header(JsTs) + "\"use client\"\n")
  {
    hide Has, HeaderOf, StartsWithDirective, Strip, InsertAfterFirstLine;
    var rest := "\"use client\"\n";
    HasNeedsRoom("\n" + rest, SPDX_MARK);
    EmptyLineThenDirective();
    InsertAfterEmptyLine(rest, Header(JsTs));
    assert "\n" + rest == "\n\"use client\"\n";
  }

  lemma InsertAfterEmptyLine(rest: string, header: string)
    ensures InsertAfterFirstLine("\n" + rest, header) == "\n" + header + rest
  {
    var content := "\n" + rest;
    FirstIndexIs(content, '\n', 0);
    assert content[..1] == "\n" && content[1..] == rest;
  }

  lemma EmptyLineThenDirective()
    ensures StartsWithDirective(Strip("\n\"use client\"\n", IsSpace))
  {
    var content, directive := "\n\"use client\"\n", "\"use client\"";
    var left := directive + "\n";
    assert content[1..] == left && left[0] == '"' && !IsSpace('"') && IsSpace('\n');
    assert StripLeft(left, IsSpace) == left;
    assert StripLeft(content, IsSpace) == left;
    assert left[|left| - 1] == '\n' && left[..|left| - 1] == directive && directive[|directive| - 1] == '"';
    assert StripRight(directive, IsSpace) == directive;
    assert Strip(content, IsSpace) == directive;
    assert DIRECTIVES[0] == directive;
  }

  // ----- Go build tags stay first

  /** The number of leading lines that are build tags. */
  function TagRun(lines: seq<string>): (n: nat)
    ensures n <= LeadingTagLines(lines)
  {
    if lines != [] && IsBuildTag(lines[0]) then 1 + TagRun(lines[1..]) else 0
  }

  /** Splitting takes off the first line. */
  lemma {:induction false} SplitFirstLine(s: string)
    requires FirstLine(s).Some?
    ensures
      var line := FirstLine(s).value;
      Split(s, '\n') == [line[..|line| - 1]] + Split(s[|line|..], '\n')
  {
    if s[0] != '\n' {
      SplitFirstLine(s[1..]);
      var i := FirstIndex(s, '\n');
      assert s[1..][..i] == s[1..i + 1];
      var rest := Split(s[1..], '\n');
      var line := FirstLine(s).value;
      assert FirstLine(s[1..]).value == line[1..];
      assert s[1..][|line| - 1..] == s[|line|..];
      assert [s[0]] + line[1..][..|line| - 2] == line[..|line| - 1];
      assert rest[1..] == Split(s[|line|..], '\n');
    }
  }

  lemma TagLine(s: string)
    requires FirstLine(s).Some?
    ensures IsBuildTag(s) <==> IsBuildTag(FirstLine(s).value[..|FirstLine(s).value| - 1])
  {
    var line := FirstLine(s).value;
    var bare := line[..|line| - 1];
    assert bare <= s;
    if StartsWith(s, "//go:build") {
      OpeningFits(s, "//go:build");
      assert bare[..10] == s[..10];
    } else if StartsWith(s, "// +build") {
      OpeningFits(s, "// +build");
      assert bare[..9] == s[..9];
    }
  }

  lemma PrependLine(bare: string, text: string, parts: seq<string>)
    requires parts != [] && text == Join(parts, '\n') + "\n"
    ensures (bare + "\n") + text == Join([bare] + parts, '\n') + "\n"
  {
    assert ([bare] + parts)[1..] == parts;
  }

  /** The scanner's build-tag run, in lines. */
  lemma {:induction false} BuildTagsInLines(s: string) returns (k: nat)
    ensures k < |Split(s, '\n')| && (k == 0 <==> BuildTags(s) == 0)
    ensures k > 0 ==> s[..BuildTags(s)] == Join(Split(s, '\n')[..k], '\n') + "\n"
    ensures Split(s[BuildTags(s)..], '\n') == Split(s, '\n')[k..]
    ensures !(IsBuildTag(s[BuildTags(s)..]) && FirstLine(s[BuildTags(s)..]).Some?)
    decreases |s|
  {
    hide Split, Join, IsBuildTag, FirstLine, BuildTags;
    if IsBuildTag(s) && FirstLine(s).Some? {
      FirstLineEnds(s);
      var j := BuildTagsInLines(s[|FirstLine(s).value|..]);
      BuildTagsCons(s, j);
      k := j + 1;
    } else {
      NoBuildTags(s);
      k := 0;
      assert s[0..] == s && Split(s, '\n')[0..] == Split(s, '\n');
    }
  }

  lemma NoBuildTags(s: string)
    requires !(IsBuildTag(s) && FirstLine(s).Some?)
    ensures BuildTags(s) == 0
  {
  }

  lemma CutBehind(s: string, n: nat, b: nat)
    requires n <= |s| && b <= |s[n..]|
    ensures s[..n + b] == s[..n] + s[n..][..b] && s[n + b..] == s[n..][b..]
  {
  }

  lemma BuildTagsCons(s: string, j: nat)
    requires IsBuildTag(s) && FirstLine(s).Some?
    requires
      var rest := s[|FirstLine(s).value|..];
      && j < |Split(rest, '\n')| && (j == 0 <==> BuildTags(rest) == 0)
      && (j > 0 ==> rest[..BuildTags(rest)] == Join(Split(rest, '\n')[..j], '\n') + "\n")
      && Split(rest[BuildTags(rest)..], '\n') == Split(rest, '\n')[j..]
    ensures
      var rest := s[|FirstLine(s).value|..];
      && BuildTags(s) > 0 && s[BuildTags(s)..] == rest[BuildTags(rest)..]
      && j + 1 < |Split(s, '\n')|
      && s[..BuildTags(s)] == Join(Split(s, '\n')[..j + 1], '\n') + "\n"
      && Split(s[BuildTags(s)..], '\n') == Split(s, '\n')[j + 1..]
  {
    hide Split, Join, IsBuildTag, FirstLine;
    FirstLineEnds(s);
    var line := FirstLine(s).value;
    var rest, bare := s[|line|..], line[..|line| - 1];
    SplitFirstLine(s);
    CutBehind(s, |line|, BuildTags(rest));
    ConsLines(bare, rest[..BuildTags(rest)], Split(rest, '\n'), j);
  }

  lemma FirstLineEnds(s: string)
    requires FirstLine(s).Some?
    ensures
      var line := FirstLine(s).value;
      && 0 < |line| <= |s| && line == s[..|line|] && line == line[..|line| - 1] + "\n"
  {
    var line := FirstLine(s).value;
    assert line[|line| - 1] == '\n';
  }

  lemma ConsLines(bare: string, front: string, tail: seq<string>, j: nat)
    requires j < |tail| && front == if j == 0 then "" else Join(tail[..j], '\n') + "\n"
    ensures (bare + "\n") + front == Join(([bare] + tail)[..j + 1], '\n') + "\n"
    ensures ([bare] + tail)[j + 1..] == tail[j..]
  {
    hide Join;
    assert ([bare] + tail)[..j + 1] == [bare] + tail[..j];
    if j > 0 {
      PrependLine(bare, front, tail[..j]);
    } else {
      assert [bare] + tail[..0] == [bare];
      JoinOne(bare);
    }
  }

  lemma JoinOne(part: string)
    ensures Join([part], '\n') == part
  {
  }

  /** All leading build tags of a Go file stay in front of the header. */
  lemma TagsStayFirst(content: string) returns (k: nat)
    requires IsBuildTag(content) && AddHeader(Go, content).Added?
    ensures TagRun(Split(content, '\n')) <= k <= |Split(content, '\n')|
    ensures StartsWith(AddHeader(Go, content).text, Join(Split(content, '\n')[..k], '\n') + "\n" + Header(Go))
  {
    hide Header, Has;
    var lines := Split(content, '\n');
    if HasShortHeader(content) {
      k := ReplacedTagsStayFirst(content);
    } else {
      k := LeadingTagLines(lines);
      var text := InsertAfterTags(content, Header(Go));
      assert text == (Join(lines[..k], '\n') + "\n" + Header(Go)) + Join(lines[k..], '\n');
    }
  }

  lemma {:induction false} TagRunStops(lines: seq<string>, j: nat)
    requires j < |lines| && !IsBuildTag(lines[j])
    ensures TagRun(lines) <= j
  {
    if j > 0 {
      TagRunStops(lines[1..], j - 1);
    }
  }

  lemma FirstLineOfTail(s: string, a: nat, b: nat)
    requires a <= b <= |s| && FirstLine(s[b..]).Some?
    ensures FirstLine(s[a..]).Some?
  {
    var i := FirstIndex(s[b..], '\n');
    assert s[a..][b - a + i] == s[b..][i] == '\n';
  }

  lemma FirstLineIsNoTag(rest: string, lines: seq<string>, j: nat)
    requires FirstLine(rest).Some? && !IsBuildTag(rest)
    requires j < |lines| && Split(rest, '\n') == lines[j..]
    ensures TagRun(lines) <= j
  {
    hide Split, IsBuildTag, TagRun, FirstLine;
    SplitFirstLine(rest);
    TagLine(rest);
    assert lines[j] == lines[j..][0];
    TagRunStops(lines, j);
  }

  /** In front of a short header the scanner has taken every leading tag line. */
  lemma TagsBeforeHeader(content: string) returns (j: nat)
    requires IsBuildTag(content)
    requires FirstLine(content[Preamble(Go, content)..]).Some?
    ensures 0 < j < |Split(content, '\n')| && TagRun(Split(content, '\n')) <= j
    ensures content[..BuildTags(content)] == Join(Split(content, '\n')[..j], '\n') + "\n"
    ensures Split(content[BuildTags(content)..], '\n') == Split(content, '\n')[j..]
  {
    hide Split, Join, IsBuildTag, TagRun, FirstLine;
    var tags := BuildTags(content);
    FirstLineOfTail(content, tags, Preamble(Go, content));
    FirstLineOfTail(content, 0, Preamble(Go, content));
    assert content[0..] == content;
    j := BuildTagsInLines(content);
    FirstLineIsNoTag(content[tags..], Split(content, '\n'), j);
  }

  lemma ReplacedTagsStayFirst(content: string) returns (k: nat)
    requires IsBuildTag(content)
    requires ShortHeader(Go, content[Preamble(Go, content)..]).Some?
    ensures TagRun(Split(content, '\n')) <= k <= |Split(content, '\n')|
    ensures StartsWith(ReplaceShortHeader(Go, content), Join(Split(content, '\n')[..k], '\n') + "\n" + Header(Go))
  {
    hide Header, TagRun, Join, Split, BuildTags, IsBuildTag, FirstLine;
    var lines, tags, p := Split(content, '\n'), BuildTags(content), Preamble(Go, content);
    var rest := content[tags..];
    var j := TagsBeforeHeader(content);
    k := if p == tags then j else j + 1;
    assert content[..p] == Join(lines[..k], '\n') + "\n" by {
      if p > tags {
        BlankFirstLine(rest);
        assert lines[j] == lines[j..][0] == "";
        JoinLast(lines[..j], "", '\n');
        assert lines[..j + 1] == lines[..j] + [""];
        assert content[..p] == content[..tags] + "\n";
      }
    }
  }

  lemma BlankFirstLine(s: string)
    requires StartsWith(s, "\n")
    ensures Split(s, '\n')[0] == ""
  {
    assert s[0] == '\n';
  }
}
