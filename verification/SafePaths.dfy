/** File names made safe for the local disk. */
module SafePaths {
  import opened Sequences

  // ----- Character classes

  /** `str.isspace()` on one character. */
  predicate IsSpace(c: char) {
    var n := c as int;
    || 9 <= n <= 13 || 28 <= n <= 32 || n == 0x85 || n == 0xa0 || n == 0x1680 || 0x2000 <= n <= 0x200a
    || n == 0x2028 || n == 0x2029 || n == 0x202f || n == 0x205f || n == 0x3000
  }

  predicate IsSlash(c: char) {
    c == '\\' || c == '/'
  }

  predicate IsAlphanumeric(c: char) {
    'A' <= c <= 'Z' || 'a' <= c <= 'z' || '0' <= c <= '9'
  }

  /** `[^A-Za-z0-9._ -]` */
  predicate IsForeign(c: char) {
    !(IsAlphanumeric(c) || c == '.' || c == '_' || c == ' ' || c == '-')
  }

  /** The characters `.strip("._- ")` takes off the ends. */
  predicate IsEdge(c: char) {
    c == '.' || c == '_' || c == '-' || c == ' '
  }

  // ----- Scanners

  /** `re.sub(r"[...]+", "_", s)`: each maximal run of matching characters becomes one `_`. */
  function Collapse(s: string, matching: char -> bool): string {
    if s == "" then ""
    else if !matching(s[0]) then [s[0]] + Collapse(s[1..], matching)
    else if |s| > 1 && matching(s[1]) then Collapse(s[1..], matching)
    else "_" + Collapse(s[1..], matching)
  }

  function StripLeft(s: string, matching: char -> bool): string {
    if s != "" && matching(s[0]) then StripLeft(s[1..], matching) else s
  }

  function StripRight(s: string, matching: char -> bool): string {
    if s != "" && matching(s[|s| - 1]) then StripRight(s[..|s| - 1], matching) else s
  }

  /** `s.strip(...)` */
  function Strip(s: string, matching: char -> bool): string {
    StripRight(StripLeft(s, matching), matching)
  }

  lemma {:induction false} CollapseChars(s: string, matching: char -> bool)
    ensures forall c :: c in Collapse(s, matching) ==> c == '_' || (c in s && !matching(c))
  {
    if s != "" {
      CollapseChars(s[1..], matching);
      assert s == [s[0]] + s[1..];
    }
  }

  lemma {:induction false} CollapseNothing(s: string, matching: char -> bool)
    requires forall c :: c in s ==> !matching(c)
    ensures Collapse(s, matching) == s
  {
    if s != "" {
      assert s == [s[0]] + s[1..];
      CollapseNothing(s[1..], matching);
    }
  }

  lemma {:induction false} StripLeftEnd(s: string, matching: char -> bool)
    ensures forall c :: c in StripLeft(s, matching) ==> c in s
    ensures var r := StripLeft(s, matching); r == "" || !matching(r[0])
  {
    if s != "" && matching(s[0]) {
      StripLeftEnd(s[1..], matching);
    }
  }

  lemma {:induction false} StripRightEnd(s: string, matching: char -> bool)
    ensures StripRight(s, matching) <= s
    ensures var r := StripRight(s, matching); r == "" || !matching(r[|r| - 1])
  {
    if s != "" && matching(s[|s| - 1]) {
      StripRightEnd(s[..|s| - 1], matching);
    }
  }

  lemma StripEnds(s: string, matching: char -> bool)
    ensures forall c :: c in Strip(s, matching) ==> c in s
    ensures var r := Strip(s, matching); r == "" || (!matching(r[0]) && !matching(r[|r| - 1]))
  {
    var left := StripLeft(s, matching);
    StripLeftEnd(s, matching);
    StripRightEnd(left, matching);
    var r := StripRight(left, matching);
    assert forall c :: c in r ==> c in left;
  }

  // ----- One component

  function SafePathComponent(value: string, fallback: string): string {
    var normalized := Sanitized(value);
    if normalized == "" then fallback else normalized
  }

  function Sanitized(value: string): string {
    var joined := Collapse(Strip(value, IsSpace), IsSlash);
    var ascii := Collapse(joined, IsForeign);
    Strip(Collapse(ascii, IsSpace), IsEdge)
  }

  /** A name of letters, digits, `.`, `_`, `-` that begins and ends with a letter or digit. */
  predicate IsClean(name: string) {
    && name != ""
    && (forall i :: 0 <= i < |name| ==> !IsForeign(name[i]) && name[i] != ' ')
    && !IsEdge(name[0]) && !IsEdge(name[|name| - 1])
  }

  /** Whatever the input, nothing is left but a clean name, or nothing at all. */
  lemma SanitizedIsClean(value: string)
    ensures Sanitized(value) == "" || IsClean(Sanitized(value))
  {
    var joined := Collapse(Strip(value, IsSpace), IsSlash);
    var ascii := Collapse(joined, IsForeign);
    var unspaced := Collapse(ascii, IsSpace);
    CollapseChars(joined, IsForeign);
    CollapseChars(ascii, IsSpace);
    StripEnds(unspaced, IsEdge);
    var r := Strip(unspaced, IsEdge);
    forall i | 0 <= i < |r| ensures !IsForeign(r[i]) && r[i] != ' ' {
      assert r[i] in r;
      assert r[i] in unspaced;
      assert IsSpace(' ');
    }
  }

  lemma CleanIsFixed(name: string)
    requires IsClean(name)
    ensures Sanitized(name) == name
  {
    forall c | c in name ensures !IsSpace(c) && !IsSlash(c) && !IsForeign(c) {
      var i :| 0 <= i < |name| && name[i] == c;
      assert !IsForeign(name[i]) && name[i] != ' ';
    }
    assert name[0] in name && name[|name| - 1] in name;
    assert StripLeft(name, IsSpace) == name && StripRight(name, IsSpace) == name;
    CollapseNothing(name, IsSlash);
    CollapseNothing(name, IsForeign);
    CollapseNothing(name, IsSpace);
    assert StripLeft(name, IsEdge) == name && StripRight(name, IsEdge) == name;
  }

  /** With a clean fallback the result is always clean, the clean names are exactly the
      fixed points, and sanitising twice is sanitising once. */
  lemma SafePathComponentIsClean(value: string, fallback: string)
    requires IsClean(fallback)
    ensures IsClean(SafePathComponent(value, fallback))
    ensures SafePathComponent(value, fallback) == value <==> IsClean(value)
    ensures SafePathComponent(SafePathComponent(value, fallback), fallback) == SafePathComponent(value, fallback)
  {
    SanitizedIsClean(value);
    CleanIsFixed(SafePathComponent(value, fallback));
    if IsClean(value) {
      CleanIsFixed(value);
    }
  }

  /** With any fallback, the result is clean exactly when the fallback is or is not needed. */
  lemma SafePathComponentCleanWhen(value: string, fallback: string)
    ensures IsClean(SafePathComponent(value, fallback)) <==> Sanitized(value) != "" || IsClean(fallback)
  {
    SanitizedIsClean(value);
  }

  // ----- What sanitising keeps

  /** The ASCII letters and digits of a text, in order. */
  function Alphanumerics(s: string): string {
    if s == "" then "" else IfAlphanumeric(s[0]) + Alphanumerics(s[1..])
  }

  function IfAlphanumeric(c: char): string {
    if IsAlphanumeric(c) then [c] else ""
  }

  lemma {:induction false} AlphanumericsAppend(front: string, last: char)
    ensures Alphanumerics(front + [last]) == Alphanumerics(front) + IfAlphanumeric(last)
  {
    if front == "" {
      assert [last][1..] == "";
    } else {
      hide IfAlphanumeric;
      assert (front + [last])[1..] == front[1..] + [last];
      AlphanumericsAppend(front[1..], last);
    }
  }

  lemma {:induction false} CollapseKeeps(s: string, matching: char -> bool)
    requires forall c :: matching(c) ==> !IsAlphanumeric(c)
    ensures Alphanumerics(Collapse(s, matching)) == Alphanumerics(s)
  {
    if s != "" {
      CollapseKeeps(s[1..], matching);
      var rest := Collapse(s[1..], matching);
      assert ([s[0]] + rest)[1..] == rest && ("_" + rest)[1..] == rest;
    }
  }

  lemma {:induction false} StripLeftKeeps(s: string, matching: char -> bool)
    requires forall c :: matching(c) ==> !IsAlphanumeric(c)
    ensures Alphanumerics(StripLeft(s, matching)) == Alphanumerics(s)
  {
    if s != "" && matching(s[0]) {
      StripLeftKeeps(s[1..], matching);
    }
  }

  lemma {:induction false} StripRightKeeps(s: string, matching: char -> bool)
    requires forall c :: matching(c) ==> !IsAlphanumeric(c)
    ensures Alphanumerics(StripRight(s, matching)) == Alphanumerics(s)
  {
    if s != "" && matching(s[|s| - 1]) {
      var front, last := s[..|s| - 1], s[|s| - 1];
      StripRightKeeps(front, matching);
      AlphanumericsAppend(front, last);
      assert s == front + [last];
    }
  }

  lemma StripKeeps(s: string, matching: char -> bool)
    requires forall c :: matching(c) ==> !IsAlphanumeric(c)
    ensures Alphanumerics(Strip(s, matching)) == Alphanumerics(s)
  {
    StripLeftKeeps(s, matching);
    StripRightKeeps(StripLeft(s, matching), matching);
  }

  /** Sanitising keeps every ASCII letter and digit, in order. */
  lemma SanitizedKeepsAlphanumerics(value: string)
    ensures Alphanumerics(Sanitized(value)) == Alphanumerics(value)
  {
    hide Alphanumerics, Collapse, Strip;
    var stripped := Strip(value, IsSpace);
    var joined := Collapse(stripped, IsSlash);
    var ascii := Collapse(joined, IsForeign);
    StripKeeps(value, IsSpace);
    CollapseKeeps(stripped, IsSlash);
    CollapseKeeps(joined, IsForeign);
    CollapseKeeps(ascii, IsSpace);
    StripKeeps(Collapse(ascii, IsSpace), IsEdge);
  }

  /** The fallback is used exactly when the value has no ASCII letter or digit at all. */
  lemma FallbackExactlyWhenNothingLeft(value: string)
    ensures Sanitized(value) == "" <==> Alphanumerics(value) == ""
  {
    SanitizedKeepsAlphanumerics(value);
    SanitizedIsClean(value);
    var r := Sanitized(value);
    if r != "" {
      assert !IsForeign(r[0]) && r[0] != ' ' && !IsEdge(r[0]);
      assert IsAlphanumeric(r[0]);
    }
  }

  // ----- What sanitising replaces

  lemma {:induction false} RunAtStart(run: string, b: string, matching: char -> bool)
    requires run != "" && forall i :: 0 <= i < |run| ==> matching(run[i])
    requires b != "" ==> !matching(b[0])
    ensures Collapse(run + b, matching) == "_" + Collapse(b, matching)
  {
    hide Collapse;
    var rest := run[1..] + b;
    assert run + b == [run[0]] + rest;
    CollapseHead(run[0], rest, matching);
    if |run| == 1 {
      assert rest == b;
    } else {
      assert rest[0] == run[1..][0];
      RunAtStart(run[1..], b, matching);
    }
  }

  /** A run of matching characters between others becomes one `_`. Together with
      `CollapseNothing` this says all there is to say. */
  lemma {:induction false} CollapseRun(a: string, run: string, b: string, matching: char -> bool)
    requires run != "" && forall i :: 0 <= i < |run| ==> matching(run[i])
    requires a != "" ==> !matching(a[|a| - 1])
    requires b != "" ==> !matching(b[0])
    ensures Collapse(a + (run + b), matching) == Collapse(a, matching) + ("_" + Collapse(b, matching))
  {
    hide Collapse;
    var tail := run + b;
    if a == "" {
      RunAtStart(run, b, matching);
      CollapseEmpty(matching);
      assert "" + tail == tail && "" + ("_" + Collapse(b, matching)) == "_" + Collapse(b, matching);
    } else {
      var rest := a[1..] + tail;
      assert a + tail == [a[0]] + rest && a == [a[0]] + a[1..];
      CollapseHead(a[0], rest, matching);
      CollapseHead(a[0], a[1..], matching);
      assert a[1..] != "" ==> rest[0] == a[1..][0];
      CollapseRun(a[1..], run, b, matching);
      InFront([a[0]], Collapse(a[1..], matching), "_" + Collapse(b, matching));
      InFront("_", Collapse(a[1..], matching), "_" + Collapse(b, matching));
    }
  }

  lemma InFront(a: string, b: string, c: string)
    ensures a + (b + c) == (a + b) + c
  {
  }

  lemma CollapseEmpty(matching: char -> bool)
    ensures Collapse("", matching) == ""
  {
  }

  lemma CollapseHead(c: char, rest: string, matching: char -> bool)
    ensures Collapse([c] + rest, matching) ==
      if !matching(c) then [c] + Collapse(rest, matching)
      else if rest != "" && matching(rest[0]) then Collapse(rest, matching)
      else "_" + Collapse(rest, matching)
  {
    assert ([c] + rest)[1..] == rest;
  }

  /** `strip` takes off matching ends and nothing else. */
  lemma StripCuts(s: string, matching: char -> bool) returns (a: string, b: string)
    ensures s == a + Strip(s, matching) + b
    ensures (forall i :: 0 <= i < |a| ==> matching(a[i])) && forall i :: 0 <= i < |b| ==> matching(b[i])
  {
    a := StripLeftCuts(s, matching);
    b := StripRightCuts(StripLeft(s, matching), matching);
  }

  lemma {:induction false} StripLeftCuts(s: string, matching: char -> bool) returns (a: string)
    ensures s == a + StripLeft(s, matching) && forall i :: 0 <= i < |a| ==> matching(a[i])
  {
    if s != "" && matching(s[0]) {
      var rest := StripLeftCuts(s[1..], matching);
      a := [s[0]] + rest;
    } else {
      a := "";
    }
  }

  lemma {:induction false} StripRightCuts(s: string, matching: char -> bool) returns (b: string)
    ensures s == StripRight(s, matching) + b && forall i :: 0 <= i < |b| ==> matching(b[i])
  {
    if s != "" && matching(s[|s| - 1]) {
      var front := StripRightCuts(s[..|s| - 1], matching);
      b := front + [s[|s| - 1]];
    } else {
      b := "";
    }
  }

  /** What separates two names: slashes, blanks, or characters of no other use. */
  ghost predicate IsSeparator(sep: string) {
    && sep != ""
    && (|| (forall i :: 0 <= i < |sep| ==> IsSlash(sep[i]))
        || (forall i :: 0 <= i < |sep| ==> sep[i] == ' ')
        || (forall i :: 0 <= i < |sep| ==> IsForeign(sep[i]) && !IsSlash(sep[i])))
  }

  lemma CleanChars(name: string)
    requires IsClean(name)
    ensures forall c :: c in name ==> !IsSpace(c) && !IsSlash(c) && !IsForeign(c)
    ensures !IsEdge(name[0]) && !IsEdge(name[|name| - 1]) && name[0] in name && name[|name| - 1] in name
  {
    forall c | c in name ensures !IsSpace(c) && !IsSlash(c) && !IsForeign(c) {
      var i :| 0 <= i < |name| && name[i] == c;
      assert !IsForeign(name[i]) && name[i] != ' ';
    }
  }

  /** A separator between two clean names becomes one `_`. */
  lemma SeparatorBecomesUnderscore(x: string, sep: string, y: string)
    requires IsClean(x) && IsClean(y) && IsSeparator(sep)
    ensures Sanitized(x + (sep + y)) == x + ("_" + y)
  {
    hide Collapse, StripLeft, StripRight, IsForeign, IsSpace, IsEdge, IsSlash, IsClean;
    CleanChars(x);
    CleanChars(y);
    var value, joined := x + (sep + y), x + ("_" + y);
    EndsKept(value, IsSpace);
    EndsKept(joined, IsEdge);
    Underscore();
    forall c | c in joined ensures !IsForeign(c) && !IsSpace(c) {
      assert c == '_' || c in x || c in y;
    }
    if forall i :: 0 <= i < |sep| ==> IsSlash(sep[i]) {
      RunBetween(x, sep, y, IsSlash);
      CollapseNothing(joined, IsForeign);
      CollapseNothing(joined, IsSpace);
    } else if forall i :: 0 <= i < |sep| ==> sep[i] == ' ' {
      assert forall c :: c in value ==> c in x || c == ' ' || c in y;
      CollapseNothing(value, IsSlash);
      CollapseNothing(value, IsForeign);
      RunBetween(x, sep, y, IsSpace);
    } else {
      assert forall c :: c in value ==> c in x || c in sep || c in y;
      assert forall c :: c in sep ==> !IsSlash(c);
      CollapseNothing(value, IsSlash);
      RunBetween(x, sep, y, IsForeign);
      CollapseNothing(joined, IsSpace);
    }
  }

  lemma Underscore()
    ensures !IsForeign('_') && !IsSpace('_') && IsSpace(' ') && !IsForeign(' ') && !IsSlash(' ')
  {
  }

  lemma EndsKept(s: string, matching: char -> bool)
    requires s != "" && !matching(s[0]) && !matching(s[|s| - 1])
    ensures Strip(s, matching) == s
  {
  }

  lemma RunBetween(x: string, sep: string, y: string, matching: char -> bool)
    requires x != "" && y != "" && sep != "" && forall i :: 0 <= i < |sep| ==> matching(sep[i])
    requires (forall c :: c in x ==> !matching(c)) && forall c :: c in y ==> !matching(c)
    ensures Collapse(x + (sep + y), matching) == x + ("_" + y)
  {
    assert x[|x| - 1] in x && y[0] in y;
    CollapseRun(x, sep, y, matching);
    CollapseNothing(x, matching);
    CollapseNothing(y, matching);
  }

  // ----- Posix paths
  /** A `PurePosixPath`: `root` is "", "/" or "//". */
  datatype PosixPath = PosixPath(root: string, names: seq<string>)

  /** `PurePosixPath(text)`: exactly two leading slashes are kept as such; empty and `.`
      components disappear. */
  function Parse(text: string): PosixPath {
    PosixPath(RootOf(text), Without(Split(text, '/'), {"", "."}))
  }

  function RootOf(text: string): string {
    if !("/" <= text) then "" else if "//" <= text && !("///" <= text) then "//" else "/"
  }

  /** `path.parts` */
  function Parts(path: PosixPath): seq<string> {
    (if path.root == "" then [] else [path.root]) + path.names
  }

  /** `a / b`: an absolute right-hand side replaces the left. */
  function Slash(a: PosixPath, b: PosixPath): PosixPath {
    if b.root != "" then b else PosixPath(a.root, a.names + b.names)
  }

  /** `Path(*args)` */
  function PathOf(args: seq<string>): PosixPath {
    if args == [] then PosixPath("", [])
    else Slash(PathOf(args[..|args| - 1]), Parse(args[|args| - 1]))
  }

  /** A component that `Parse` leaves alone. */
  predicate IsPlain(name: string) {
    name != "" && name != "." && '/' !in name
  }

  lemma ParsePlain(name: string)
    requires IsPlain(name)
    ensures Parse(name) == PosixPath("", [name])
  {
    SplitOfJoin([name], '/');
    WithoutNothing([name], {"", "."});
    assert name[0] in name;
  }

  lemma {:induction false} PathOfPlain(names: seq<string>)
    requires forall name :: name in names ==> IsPlain(name)
    ensures PathOf(names) == PosixPath("", names)
  {
    if names != [] {
      var front, last := names[..|names| - 1], names[|names| - 1];
      assert names == front + [last];
      PathOfPlain(front);
      ParsePlain(last);
    }
  }

  /** Printing and parsing a relative path of plain names gives it back. */
  lemma ParseOfText(names: seq<string>)
    requires names != [] && forall name :: name in names ==> IsPlain(name)
    ensures Parse(Join(names, '/')) == PosixPath("", names)
  {
    SplitOfJoin(names, '/');
    WithoutNothing(names, {"", "."});
    var text := Join(names, '/');
    assert names[0] in names && names[0][0] in names[0];
    assert text[0] == names[0][0];
  }

  // ----- Config file names

  /** `text.replace("\\", "/")` */
  function ForwardSlashes(text: string): string {
    seq(|text|, i requires 0 <= i < |text| => if text[i] == '\\' then '/' else text[i])
  }

  /** The parts the loop of `safe_config_path` runs over. */
  function RawParts(filename: string): seq<string> {
    Parts(Parse(ForwardSlashes(filename)))
  }

  /** What one part becomes. */
  function SafePart(part: string): seq<string> {
    if part == "" || part == "." || part == "/" then []
    else if part == ".." then ["_"]
    else [SafePathComponent(part, "file")]
  }

  function SafeParts(parts: seq<string>): seq<string> {
    if parts == [] then [] else SafeParts(parts[..|parts| - 1]) + SafePart(parts[|parts| - 1])
  }

  /** The components of the path `safe_config_path` returns. */
  function SafeNames(filename: string): seq<string> {
    var names := SafeParts(RawParts(filename));
    if names == [] then ["config.txt"] else names
  }

  /** `safe_config_path` returns a relative path with the components `SafeNames(filename)`. */
  method SafeConfigPath(filename: string) returns (path: PosixPath)
    ensures path == PosixPath("", SafeNames(filename))
  {
    var names := [];
    var parts := RawParts(filename);
    for i := 0 to |parts|
      invariant names == SafeParts(parts[..i])
    {
      assert parts[..i + 1][..i] == parts[..i];
      if parts[i] == "" || parts[i] == "." || parts[i] == "/" {
        assert names + [] == names;
      } else if parts[i] == ".." {
        names := names + ["_"];
      } else {
        names := names + [SafePathComponent(parts[i], "file")];
      }
    }
    assert parts[..|parts|] == parts;
    path := PathOf(if names == [] then ["config.txt"] else names);
    SafeNamesAreSafe(filename);
    PathOfPlain(SafeNames(filename));
  }

  lemma CleanIsPlain(name: string)
    requires IsClean(name) || name == "_"
    ensures IsPlain(name) && name != ".." && '\\' !in name
  {
    forall i | 0 <= i < |name| ensures name[i] != '/' && name[i] != '\\' {
      assert name != "_" ==> !IsForeign(name[i]);
    }
    if IsClean(name) {
      assert IsEdge('.');
    }
  }

  lemma FileIsClean()
    ensures IsClean("file") && IsClean("config.txt") && !IsClean("_") && Sanitized("_") == ""
  {
    assert Strip("_", IsSpace) == "_";
    CollapseNothing("_", IsSlash);
    CollapseNothing("_", IsForeign);
    CollapseNothing("_", IsSpace);
    assert StripLeft("_", IsEdge) == "" by { assert "_"[1..] == ""; }
  }

  lemma {:induction false} SafePartsAre(parts: seq<string>)
    ensures forall name :: name in SafeParts(parts) ==> IsClean(name) || name == "_"
    ensures "_" in SafeParts(parts) <==> ".." in parts
  {
    if parts != [] {
      var front, last := parts[..|parts| - 1], parts[|parts| - 1];
      SafePartsAre(front);
      assert parts == front + [last];
      FileIsClean();
      SafePathComponentIsClean(last, "file");
    }
  }

  /** Every result is a non-empty list of clean names and `_`, so the path is relative and has
      no `.` or `..` in it; `_` stands exactly where the file name had a `..`. */
  lemma SafeNamesAreSafe(filename: string)
    ensures SafeNames(filename) != []
    ensures forall name :: name in SafeNames(filename) ==>
              (IsClean(name) || name == "_") && IsPlain(name) && name != ".."
    ensures "_" in SafeNames(filename) <==> ".." in RawParts(filename)
  {
    SafePartsAre(RawParts(filename));
    FileIsClean();
    forall name | name in SafeNames(filename) ensures IsPlain(name) && name != ".." {
      CleanIsPlain(name);
    }
  }

  lemma {:induction false} SafePartsOfClean(names: seq<string>)
    requires forall name :: name in names ==> IsClean(name)
    ensures SafeParts(names) == names
  {
    if names != [] {
      var front, last := names[..|names| - 1], names[|names| - 1];
      assert names == front + [last];
      SafePartsOfClean(front);
      CleanIsFixed(last);
      CleanIsPlain(last);
    }
  }

  lemma SafePartsHaveNoUnderscore(names: seq<string>)
    requires ".." !in names
    ensures "_" !in SafeParts(names)
  {
    SafePartsAre(names);
  }

  /** What the names of a safe path become on a second pass. */
  lemma RawPartsOfSafe(filename: string)
    ensures RawParts(Join(SafeNames(filename), '/')) == SafeNames(filename)
  {
    var names := SafeNames(filename);
    SafeNamesAreSafe(filename);
    ParseOfText(names);
    forall name | name in names ensures '\\' !in name {
      CleanIsPlain(name);
    }
    JoinChars(names, '/', '\\');
    assert ForwardSlashes(Join(names, '/')) == Join(names, '/');
  }

  lemma {:induction false} JoinChars(parts: seq<string>, sep: char, c: char)
    requires c != sep && forall p :: p in parts ==> c !in p
    ensures c !in Join(parts, sep)
  {
    if |parts| > 1 {
      JoinChars(parts[1..], sep, c);
    }
  }

  /** A second pass, on the printed path, changes nothing exactly when the file name has no `..` segment: each
      `..` becomes `_` on the first pass and `file` on the second. */
  lemma SafeNamesIdempotentWhen(filename: string)
    ensures SafeNames(Join(SafeNames(filename), '/')) == SafeNames(filename) <==> ".." !in RawParts(filename)
  {
    var names := SafeNames(filename);
    SafeNamesAreSafe(filename);
    RawPartsOfSafe(filename);
    if ".." in RawParts(filename) {
      SafePartsHaveNoUnderscore(names);
    } else {
      forall name | name in names ensures IsClean(name) {
      }
      SafePartsOfClean(names);
    }
  }

  // ----- One name for each part

  /** `_` for `..`, `file` for a part without letters or digits, and otherwise a name with the
      part's letters and digits. */
  ghost predicate Follows(name: string, part: string) {
    if part == ".." then name == "_"
    else if Alphanumerics(part) == "" then name == "file"
    else Alphanumerics(name) == Alphanumerics(part)
  }

  lemma PartFollows(part: string)
    ensures part in {"", ".", "/"} ==> SafePart(part) == []
    ensures part !in {"", ".", "/"} ==> |SafePart(part)| == 1 && Follows(SafePart(part)[0], part)
  {
    hide Alphanumerics, Sanitized;
    FallbackExactlyWhenNothingLeft(part);
    SanitizedKeepsAlphanumerics(part);
  }

  lemma {:induction false} SafePartsFollow(parts: seq<string>)
    ensures |SafeParts(parts)| == |Without(parts, {"", ".", "/"})|
    ensures forall i :: 0 <= i < |SafeParts(parts)| ==>
              Follows(SafeParts(parts)[i], Without(parts, {"", ".", "/"})[i])
  {
    if parts != [] {
      hide Follows, SafePart;
      SafePartsFollow(parts[..|parts| - 1]);
      PartFollows(parts[|parts| - 1]);
    }
  }

  /** The path has one name for each part of the file name that is not empty, `.` or the root,
      in order. Without such a part it is `config.txt`. */
  lemma SafeNamesFollowParts(filename: string)
    ensures
      var kept := Without(RawParts(filename), {"", ".", "/"});
      if kept == [] then SafeNames(filename) == ["config.txt"]
      else
        && |SafeNames(filename)| == |kept|
        && forall i :: 0 <= i < |kept| ==> Follows(SafeNames(filename)[i], kept[i])
  {
    hide SafeParts, RawParts, Follows, Without;
    SafePartsFollow(RawParts(filename));
  }

  /** A relative path of clean names is kept as it is, with slashes or backslashes. */
  lemma CleanPathsAreKept(names: seq<string>)
    requires names != [] && forall name :: name in names ==> IsClean(name)
    ensures SafeNames(Join(names, '/')) == names && SafeNames(Join(names, '\\')) == names
  {
    hide SafeParts, Join, IsClean, IsPlain, Parse;
    forall name | name in names ensures IsPlain(name) && '\\' !in name {
      CleanIsPlain(name);
    }
    ParseOfText(names);
    JoinChars(names, '/', '\\');
    var text := Join(names, '/');
    assert ForwardSlashes(text) == text;
    SlashesForBackslashes(names);
    assert Parts(PosixPath("", names)) == names;
    SafePartsOfClean(names);
  }

  /** Leading slashes disappear, except that exactly two of them leave a name of their own. */
  lemma LeadingSlashes(slashes: string, name: string)
    requires IsClean(name) && slashes in {"/", "//", "///"}
    ensures SafeNames(slashes + name) == if slashes == "//" then ["file", name] else [name]
  {
    hide RawParts, SafeParts, SafePart, IsClean;
    CleanIsPlain(name);
    RootedNames(slashes, name);
    var root := if slashes == "//" then "//" else "/";
    SafePartsOfTwo(root, name);
    SlashParts();
    CleanPart(name);
    assert [] + [name] == [name] && ["file"] + [name] == ["file", name];
  }

  lemma SafePartsOfTwo(root: string, name: string)
    ensures SafeParts([root, name]) == SafePart(root) + SafePart(name)
  {
    assert [root, name][..1] == [root] && [root][..0] == [];
    assert SafeParts([root]) == SafePart(root);
  }

  lemma SlashParts()
    ensures SafePart("/") == [] && SafePart("//") == ["file"]
  {
    hide Sanitized;
    FallbackExactlyWhenNothingLeft("//");
    assert Alphanumerics("//") == "" by {
      assert "//"[1..] == "/" && "/"[1..] == "";
    }
  }

  lemma CleanPart(name: string)
    requires IsClean(name)
    ensures SafePart(name) == [name]
  {
    CleanIsFixed(name);
    CleanIsPlain(name);
    assert name != "/" by {
      assert '/' !in name;
    }
  }

  lemma RootedNames(slashes: string, name: string)
    requires IsPlain(name) && '\\' !in name && slashes in {"/", "//", "///"}
    ensures RawParts(slashes + name) == [if slashes == "//" then "//" else "/", name]
  {
    hide Split, Without, RootOf, Empties;
    var text := slashes + name;
    assert ForwardSlashes(text) == text;
    SplitSlashes(slashes, name);
    WithoutSlashes(|slashes|, name);
    RootOfSlashes(slashes, name);
  }

  lemma RootOfSlashes(slashes: string, name: string)
    requires IsPlain(name) && slashes in {"/", "//", "///"}
    ensures RootOf(slashes + name) == if slashes == "//" then "//" else "/"
  {
    var text := slashes + name;
    assert name[0] in name;
    assert text[0] == '/' && text[|slashes|] == name[0] != '/';
    assert |slashes| > 1 ==> text[1] == '/';
    assert |slashes| > 2 ==> text[2] == '/';
  }

  function Empties(n: nat): seq<string> {
    if n == 0 then [] else [""] + Empties(n - 1)
  }

  lemma {:induction false} SplitSlashes(slashes: string, name: string)
    requires IsPlain(name) && forall i :: 0 <= i < |slashes| ==> slashes[i] == '/'
    ensures Split(slashes + name, '/') == Empties(|slashes|) + [name]
  {
    if slashes == "" {
      SplitOfJoin([name], '/');
      assert slashes + name == name;
    } else {
      var text := slashes + name;
      assert text[0] == '/' && text[1..] == slashes[1..] + name;
      SplitSlashes(slashes[1..], name);
    }
  }

  lemma {:induction false} WithoutEmpties(n: nat)
    ensures Without(Empties(n), {"", "."}) == []
  {
    hide Without;
    if n > 0 {
      WithoutEmpties(n - 1);
      WithoutAppend([""], Empties(n - 1), {"", "."});
      WithoutSingle("", {"", "."});
    } else {
      WithoutNothing<string>([], {"", "."});
    }
  }

  lemma WithoutSlashes(n: nat, name: string)
    requires IsPlain(name)
    ensures Without(Empties(n) + [name], {"", "."}) == [name]
  {
    hide Without, Empties;
    WithoutEmpties(n);
    WithoutAppend(Empties(n), [name], {"", "."});
    WithoutSingle(name, {"", "."});
    assert [] + [name] == [name];
  }

  lemma {:induction false} SlashesForBackslashes(names: seq<string>)
    requires forall name :: name in names ==> '\\' !in name
    ensures ForwardSlashes(Join(names, '\\')) == Join(names, '/')
  {
    if names != [] {
      assert names[0] in names;
      assert ForwardSlashes(names[0]) == names[0];
      if |names| > 1 {
        SlashesForBackslashes(names[1..]);
        var rest := Join(names[1..], '\\');
        assert ForwardSlashes(names[0] + ['\\'] + rest) == ForwardSlashes(names[0]) + ['/'] + ForwardSlashes(rest);
      }
    }
  }
}
