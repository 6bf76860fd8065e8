/** Whole runs of the header script over the files of a repository. */
module HeaderRuns {
  import opened LicenseHeaders
  import opened Options
  import opened Sequences

  // ----- One open file

  /** A text file opened for reading and writing. */
  class OpenFile {
    var text: string
    var pos: nat

    ghost predicate Valid()
      reads this
    {
      pos <= |text|
    }

    constructor (text: string)
      ensures this.text == text && pos == 0
    {
      this.text := text;
      pos := 0;
    }

    method Read() returns (content: string)
      requires Valid()
      modifies `pos
      ensures content == text[old(pos)..] && pos == |text|
    {
      content := text[pos..];
      pos := |text|;
    }

    method Seek(to: nat)
      requires to <= |text|
      modifies `pos
      ensures pos == to
    {
      pos := to;
    }

    /** Overwrites from the current position on. */
    method Write(content: string)
      requires Valid()
      modifies this
      ensures pos == old(pos) + |content|
      ensures text == old(text)[..old(pos)] + content
                + if pos <= |old(text)| then old(text)[pos..] else ""
    {
      var end := pos + |content|;
      text := text[..pos] + content + if end <= |text| then text[end..] else "";
      pos := end;
    }

    method Truncate()
      requires Valid()
      modifies `text
      ensures text == old(text)[..pos]
    {
      text := text[..pos];
    }

    /** `_write_open_file`: the file holds the new content and nothing else. */
    method Replace(content: string)
      modifies this
      ensures text == content
    {
      Seek(0);
      Write(content);
      Truncate();
    }
  }

  datatype Kind = Modified | Unchanged | Failure

  function KindOf(r: Result): Kind {
    match r case Added(_) => Modified case Skipped => Unchanged case Failed => Failure
  }

  /** The three `add_header_to_*` functions on an open file. */
  method AddHeaderTo(lang: Language, file: OpenFile) returns (kind: Kind)
    requires file.pos == 0
    modifies file
    ensures kind == KindOf(AddHeader(lang, old(file.text)))
    ensures kind == match AddHeader(lang, old(file.text))
                    case Added(_) => Modified case Skipped => Unchanged case Failed => Failure
    ensures file.text == if kind.Modified? then AddHeader(lang, old(file.text)).text else old(file.text)
  {
    hide Has, Header, Preamble, ShortHeader, InsertAfterFirstLine, LeadingTagLines, Join, Split;
    var content := file.Read();
    assert content == file.text;
    if HasFullHeader(content) {
      return Unchanged;
    }
    var changed: string;
    if HasShortHeader(content) {
      changed := ReplaceShortHeader(lang, content);
      if changed == content {
        return Failure;
      }
    } else if !HasPreamble(lang, content) {
      changed := Header(lang) + content;
    } else if lang.Go? {
      var lines := Split(content, '\n');
      var buildTagEnd := CountLeadingTagLines(lines);
      changed := Join(lines[..buildTagEnd], '\n') + "\n" + Header(lang) + Join(lines[buildTagEnd..], '\n');
    } else {
      changed := InsertAfterFirstLine(content, Header(lang));
    }
    file.Replace(changed);
    kind := Modified;
  }

  // ----- What a run visits

  /** A file whose text can be read, or one that cannot be opened or decoded. */
  datatype File = Text(content: string) | Unreadable

  /** What listing a directory for an extension gives: nothing there, refused, or sorted paths. */
  datatype Listing = Missing | Refused | Paths(paths: seq<string>)

  /** One thing a run counts: a file, or a directory it was refused. */
  datatype Visit = VisitFile(path: string, lang: Language) | VisitRefused

  const SKIP_PATTERNS := ["__pycache__", ".pyc", "node_modules", ".git", ".venv", "uv.lock"]

  predicate ShouldSkip(path: string) {
    exists i :: 0 <= i < |SKIP_PATTERNS| && Has(path, SKIP_PATTERNS[i])
  }

  /** The files of a listing that are processed. */
  function VisitsOfPaths(paths: seq<string>, lang: Language): seq<Visit> {
    if paths == [] then []
    else
      var last := paths[|paths| - 1];
      VisitsOfPaths(paths[..|paths| - 1], lang) + if ShouldSkip(last) then [] else [VisitFile(last, lang)]
  }

  function VisitsOf(listing: Listing, lang: Language): seq<Visit> {
    match listing
    case Missing => []
    case Refused => [VisitRefused]
    case Paths(paths) => VisitsOfPaths(paths, lang)
  }

  /** One call of `process_directory` in `main`. */
  datatype Job = Job(dir: string, extension: string, lang: Language)

  function VisitsOfJobs(jobs: seq<Job>, list: (string, string) -> Listing): seq<Visit> {
    if jobs == [] then []
    else
      var last := jobs[|jobs| - 1];
      VisitsOfJobs(jobs[..|jobs| - 1], list) + VisitsOf(list(last.dir, last.extension), last.lang)
  }

  // ----- What a run does

  type Files = map<string, File>

  /** The file a visit finds; a path that is gone cannot be opened. */
  function FileAt(files: Files, path: string): File {
    if path in files then files[path] else Unreadable
  }

  function VisitKind(files: Files, v: Visit): Kind {
    if v.VisitRefused? || FileAt(files, v.path).Unreadable? then Failure
    else KindOf(AddHeader(v.lang, FileAt(files, v.path).content))
  }

  function VisitEffect(files: Files, v: Visit): Files {
    if VisitKind(files, v) != Modified then files
    else files[v.path := Text(AddHeader(v.lang, files[v.path].content).text)]
  }

  /** What a visit counts as, and which file it leaves. */
  lemma VisitTells(files: Files, path: string, lang: Language)
    ensures
      var kind, after := VisitKind(files, VisitFile(path, lang)), VisitEffect(files, VisitFile(path, lang));
      match FileAt(files, path)
      case Unreadable => kind == Failure && after == files
      case Text(content) =>
        match AddHeader(lang, content)
        case Added(text) => kind == Modified && after == files[path := Text(text)]
        case Skipped => kind == Unchanged && after == files
        case Failed => kind == Failure && after == files
  {
    hide AddHeader;
  }

  /** The places that are left out. */
  ghost predicate InSkippedPlace(path: string) {
    || Contains(path, "__pycache__") || Contains(path, ".pyc") || Contains(path, "node_modules")
    || Contains(path, ".git") || Contains(path, ".venv") || Contains(path, "uv.lock")
  }

  lemma SkipsExactly(path: string)
    ensures ShouldSkip(path) <==> InSkippedPlace(path)
  {
    hide Has, Contains;
    assert |SKIP_PATTERNS| == 6;
    forall i | 0 <= i < |SKIP_PATTERNS| ensures Has(path, SKIP_PATTERNS[i]) <==> Contains(path, SKIP_PATTERNS[i]) {
      HasIsContains(path, SKIP_PATTERNS[i]);
    }
    assert SKIP_PATTERNS[0] == "__pycache__" && SKIP_PATTERNS[1] == ".pyc" && SKIP_PATTERNS[2] == "node_modules";
    assert SKIP_PATTERNS[3] == ".git" && SKIP_PATTERNS[4] == ".venv" && SKIP_PATTERNS[5] == "uv.lock";
  }

  /** The files visited are those listed, in order, less those in a skipped place. */
  lemma {:induction false} VisitsAre(paths: seq<string>, lang: Language, left: set<string>)
    requires forall path :: path in paths ==> (path in left <==> InSkippedPlace(path))
    ensures |VisitsOfPaths(paths, lang)| == |Without(paths, left)|
    ensures forall i :: 0 <= i < |VisitsOfPaths(paths, lang)| ==>
              VisitsOfPaths(paths, lang)[i] == VisitFile(Without(paths, left)[i], lang)
  {
    if paths != [] {
      hide InSkippedPlace, ShouldSkip;
      var front, last := paths[..|paths| - 1], paths[|paths| - 1];
      assert paths == front + [last];
      VisitsAre(front, lang, left);
      SkipsExactly(last);
    }
  }

  datatype Run = Run(files: Files, kinds: seq<Kind>)

  /** The visits one after the other: the files left and what each visit counted as. */
  function RunVisits(files: Files, visits: seq<Visit>): (r: Run)
    ensures |r.kinds| == |visits|
  {
    if visits == [] then Run(files, [])
    else
      var n := |visits| - 1;
      var before := RunVisits(files, visits[..n]);
      Run(VisitEffect(before.files, visits[n]), before.kinds + [VisitKind(before.files, visits[n])])
  }

  function Count(kinds: seq<Kind>, kind: Kind): nat {
    if kinds == [] then 0
    else Count(kinds[..|kinds| - 1], kind) + if kinds[|kinds| - 1] == kind then 1 else 0
  }

  lemma {:induction false} CountAppend(a: seq<Kind>, b: seq<Kind>, kind: Kind)
    ensures Count(a + b, kind) == Count(a, kind) + Count(b, kind)
  {
    if b == [] {
      assert a + b == a;
    } else {
      assert (a + b)[..|a + b| - 1] == a + b[..|b| - 1];
      CountAppend(a, b[..|b| - 1], kind);
    }
  }

  lemma CountOne(kind: Kind, of: Kind)
    ensures Count([kind], of) == if kind == of then 1 else 0
  {
    assert [kind][..0] == [];
  }

  lemma {:induction false} RunAppend(files: Files, a: seq<Visit>, b: seq<Visit>)
    ensures
      var first := RunVisits(files, a);
      var second := RunVisits(first.files, b);
      RunVisits(files, a + b) == Run(second.files, first.kinds + second.kinds)
  {
    if b == [] {
      assert a + b == a;
    } else {
      assert (a + b)[..|a + b| - 1] == a + b[..|b| - 1];
      RunAppend(files, a, b[..|b| - 1]);
    }
  }

  datatype Totals = Totals(modified: nat, skipped: nat, failed: nat)

  function TotalsOf(kinds: seq<Kind>): Totals {
    Totals(Count(kinds, Modified), Count(kinds, Unchanged), Count(kinds, Failure))
  }

  function Sum(a: Totals, b: Totals): Totals {
    Totals(a.modified + b.modified, a.skipped + b.skipped, a.failed + b.failed)
  }

  lemma TotalsAppend(a: seq<Kind>, b: seq<Kind>)
    ensures TotalsOf(a + b) == Sum(TotalsOf(a), TotalsOf(b))
  {
    hide Count;
    CountAppend(a, b, Modified);
    CountAppend(a, b, Unchanged);
    CountAppend(a, b, Failure);
  }

  /** The repository's files, rewritten in place. */
  class Repository {
    var files: Files

    constructor (files: Files)
      ensures this.files == files
    {
      this.files := files;
    }

    method VisitPath(path: string, lang: Language) returns (kind: Kind)
      modifies this
      ensures kind == VisitKind(old(files), VisitFile(path, lang))
      ensures files == VisitEffect(old(files), VisitFile(path, lang))
    {
      hide AddHeader;
      if FileAt(files, path).Unreadable? {
        return Failure;
      }
      var file := new OpenFile(files[path].content);
      kind := AddHeaderTo(lang, file);
      if kind == Modified {
        files := files[path := Text(file.text)];
      }
    }

    /** `process_directory` */
    method ProcessDirectory(listing: Listing, lang: Language) returns (totals: Totals)
      modifies this
      ensures
        var run := RunVisits(old(files), VisitsOf(listing, lang));
        files == run.files && totals == TotalsOf(run.kinds)
      ensures listing.Missing? ==> files == old(files) && totals == Totals(0, 0, 0)
      ensures listing.Refused? ==> files == old(files) && totals == Totals(0, 0, 1)
    {
      hide VisitKind, VisitEffect, ShouldSkip, TotalsOf, RunVisits, VisitsOfPaths;
      NoVisits(files);
      match listing
      case Missing => totals := Totals(0, 0, 0);
      case Refused =>
        totals := Totals(0, 0, 1);
        OneRefused(files);
      case Paths(paths) =>
        var modified, skipped, failed := 0, 0, 0;
        NoPaths(lang);
        for i := 0 to |paths|
          invariant files == RunVisits(old(files), VisitsOfPaths(paths[..i], lang)).files
          invariant Totals(modified, skipped, failed)
                 == TotalsOf(RunVisits(old(files), VisitsOfPaths(paths[..i], lang)).kinds)
        {
          OneMorePath(old(files), paths, i, lang);
          if ShouldSkip(paths[i]) {
            continue;
          }
          var kind := VisitPath(paths[i], lang);
          match kind {
            case Modified => modified := modified + 1;
            case Unchanged => skipped := skipped + 1;
            case Failure => failed := failed + 1;
          }
        }
        assert paths[..|paths|] == paths;
        totals := Totals(modified, skipped, failed);
    }

    /** The loops of `main`: one directory and extension after the other, totals added up. */
    method ProcessAll(jobs: seq<Job>, list: (string, string) -> Listing) returns (totals: Totals, exitCode: int)
      modifies this
      ensures
        var run := RunVisits(old(files), VisitsOfJobs(jobs, list));
        files == run.files && totals == TotalsOf(run.kinds)
      ensures exitCode == if totals.failed > 0 then 1 else 0
    {
      hide VisitKind, VisitEffect, Count, VisitsOf;
      totals := Totals(0, 0, 0);
      NoVisits(files);
      for i := 0 to |jobs|
        invariant files == RunVisits(old(files), VisitsOfJobs(jobs[..i], list)).files
        invariant totals == TotalsOf(RunVisits(old(files), VisitsOfJobs(jobs[..i], list)).kinds)
      {
        OneMoreJob(old(files), jobs, i, list);
        var more := ProcessDirectory(list(jobs[i].dir, jobs[i].extension), jobs[i].lang);
        totals := Sum(totals, more);
      }
      assert jobs[..|jobs|] == jobs;
      exitCode := if totals.failed > 0 then 1 else 0;
    }
  }

  lemma NoVisits(files: Files)
    ensures RunVisits(files, []) == Run(files, []) && TotalsOf([]) == Totals(0, 0, 0)
  {
  }

  lemma NoPaths(lang: Language)
    ensures VisitsOfPaths([], lang) == []
  {
  }

  lemma OneRefused(files: Files)
    ensures RunVisits(files, [VisitRefused]) == Run(files, [Failure])
    ensures TotalsOf([Failure]) == Totals(0, 0, 1)
  {
    assert [VisitRefused][..0] == [];
    CountOne(Failure, Modified);
    CountOne(Failure, Unchanged);
    CountOne(Failure, Failure);
  }

  lemma OneMoreVisit(files: Files, visits: seq<Visit>, v: Visit)
    ensures
      var before := RunVisits(files, visits);
      RunVisits(files, visits + [v])
      == Run(VisitEffect(before.files, v), before.kinds + [VisitKind(before.files, v)])
  {
    assert (visits + [v])[..|visits|] == visits;
  }

  lemma OneMorePath(files: Files, paths: seq<string>, i: nat, lang: Language)
    requires i < |paths|
    ensures
      var before := RunVisits(files, VisitsOfPaths(paths[..i], lang));
      var after := RunVisits(files, VisitsOfPaths(paths[..i + 1], lang));
      var v := VisitFile(paths[i], lang);
      if ShouldSkip(paths[i]) then after == before
      else
        && after.files == VisitEffect(before.files, v)
        && TotalsOf(after.kinds) == Sum(TotalsOf(before.kinds), TotalsOf([VisitKind(before.files, v)]))
        && var kind := VisitKind(before.files, v);
           TotalsOf([kind]) == Totals(if kind == Modified then 1 else 0, if kind == Unchanged then 1 else 0,
                                      if kind == Failure then 1 else 0)
  {
    hide VisitKind, VisitEffect, ShouldSkip, Count;
    assert paths[..i + 1][..i] == paths[..i];
    var visits, v := VisitsOfPaths(paths[..i], lang), VisitFile(paths[i], lang);
    if ShouldSkip(paths[i]) {
      assert visits + [] == visits;
    } else {
      OneMoreVisit(files, visits, v);
      var kind := VisitKind(RunVisits(files, visits).files, v);
      TotalsAppend(RunVisits(files, visits).kinds, [kind]);
      CountOne(kind, Modified);
      CountOne(kind, Unchanged);
      CountOne(kind, Failure);
    }
  }

  lemma OneMoreJob(files: Files, jobs: seq<Job>, i: nat, list: (string, string) -> Listing)
    requires i < |jobs|
    ensures
      var before := RunVisits(files, VisitsOfJobs(jobs[..i], list));
      var more := RunVisits(before.files, VisitsOf(list(jobs[i].dir, jobs[i].extension), jobs[i].lang));
      var after := RunVisits(files, VisitsOfJobs(jobs[..i + 1], list));
      after.files == more.files && TotalsOf(after.kinds) == Sum(TotalsOf(before.kinds), TotalsOf(more.kinds))
  {
    hide VisitKind, VisitEffect, Count, VisitsOf;
    assert jobs[..i + 1][..i] == jobs[..i];
    var visits, own := VisitsOfJobs(jobs[..i], list), VisitsOf(list(jobs[i].dir, jobs[i].extension), jobs[i].lang);
    RunAppend(files, visits, own);
    var before := RunVisits(files, visits);
    TotalsAppend(before.kinds, RunVisits(before.files, own).kinds);
  }

  // ----- A second run

  /** The kind a visit must have when it is made again after everything. */
  function Again(kind: Kind): Kind {
    if kind.Failure? then Failure else Unchanged
  }

  /** No path is visited as two languages. */
  ghost predicate OneLanguagePerPath(visits: seq<Visit>) {
    forall v, w :: v in visits && w in visits && v.VisitFile? && w.VisitFile? && v.path == w.path ==> v.lang == w.lang
  }

  /** Right after a visit, making it again changes nothing. */
  lemma SettledAfter(files: Files, v: Visit)
    ensures VisitKind(VisitEffect(files, v), v) == Again(VisitKind(files, v))
  {
    hide AddHeader;
    if VisitKind(files, v) == Modified {
      AddedIsFull(v.lang, files[v.path].content);
    }
  }

  /** A settled visit stays settled whatever else of the run is visited. */
  lemma SettledStays(files: Files, v: Visit, w: Visit)
    requires v.VisitFile? && w.VisitFile? && v.path == w.path ==> v.lang == w.lang
    requires VisitKind(files, v) != Modified
    ensures VisitKind(VisitEffect(files, w), v) == VisitKind(files, v)
  {
    hide AddHeader;
  }

  /** After a whole run every visit of it is settled. */
  lemma {:induction false} AllSettled(files: Files, visits: seq<Visit>, i: nat)
    requires OneLanguagePerPath(visits) && i < |visits|
    ensures VisitKind(RunVisits(files, visits).files, visits[i]) == Again(RunVisits(files, visits).kinds[i])
  {
    hide VisitKind, VisitEffect;
    var n := |visits| - 1;
    var before := RunVisits(files, visits[..n]);
    if i == n {
      SettledAfter(before.files, visits[n]);
    } else {
      assert forall v :: v in visits[..n] ==> v in visits;
      AllSettled(files, visits[..n], i);
      assert visits[..n][i] == visits[i];
      SettledStays(before.files, visits[i], visits[n]);
    }
  }

  lemma {:induction false} SettledRun(files: Files, visits: seq<Visit>)
    requires forall v :: v in visits ==> VisitKind(files, v) != Modified
    ensures RunVisits(files, visits).files == files
    ensures forall i :: 0 <= i < |visits| ==> RunVisits(files, visits).kinds[i] == VisitKind(files, visits[i])
  {
    hide VisitKind, VisitEffect;
    if visits != [] {
      var n := |visits| - 1;
      assert forall v :: v in visits[..n] ==> v in visits;
      SettledRun(files, visits[..n]);
      assert visits[n] in visits;
      SettledVisit(files, visits[n]);
    }
  }

  lemma SettledVisit(files: Files, v: Visit)
    requires VisitKind(files, v) != Modified
    ensures VisitEffect(files, v) == files
  {
  }

  lemma {:induction false} CountAgain(kinds: seq<Kind>, again: seq<Kind>)
    requires |kinds| == |again| && forall i :: 0 <= i < |kinds| ==> again[i] == Again(kinds[i])
    ensures Count(again, Modified) == 0
    ensures Count(again, Unchanged) == Count(kinds, Modified) + Count(kinds, Unchanged)
    ensures Count(again, Failure) == Count(kinds, Failure)
  {
    if kinds != [] {
      CountAgain(kinds[..|kinds| - 1], again[..|kinds| - 1]);
    }
  }

  /** The script converges: run again on the same file set, it changes no file, modifies
      nothing, skips exactly what it had modified or skipped, and fails on the same visits. */
  lemma SecondRunChangesNothing(files: Files, visits: seq<Visit>)
    requires OneLanguagePerPath(visits)
    ensures
      var first := RunVisits(files, visits);
      var second := RunVisits(first.files, visits);
      && second.files == first.files
      && TotalsOf(second.kinds) == Totals(0, TotalsOf(first.kinds).modified + TotalsOf(first.kinds).skipped,
                                          TotalsOf(first.kinds).failed)
      && forall i :: 0 <= i < |visits| ==> (second.kinds[i] == Failure <==> first.kinds[i] == Failure)
  {
    hide VisitKind, VisitEffect, Count, RunVisits;
    var first := RunVisits(files, visits);
    forall i | 0 <= i < |visits| ensures VisitKind(first.files, visits[i]) == Again(first.kinds[i]) {
      AllSettled(files, visits, i);
    }
    SettledRun(first.files, visits);
    CountAgain(first.kinds, RunVisits(first.files, visits).kinds);
  }

  /** One visit leaves a file as it was unless it visits and modifies that file. */
  lemma VisitLeaves(files: Files, v: Visit, path: string)
    requires v.VisitFile? && v.path == path ==> VisitKind(files, v) != Modified
    ensures FileAt(VisitEffect(files, v), path) == FileAt(files, path)
  {
    hide AddHeader;
  }

  lemma KindsOfFront(files: Files, visits: seq<Visit>, i: nat)
    requires i < |visits| - 1
    ensures visits[..|visits| - 1][i] == visits[i]
    ensures RunVisits(files, visits[..|visits| - 1]).kinds[i] == RunVisits(files, visits).kinds[i]
  {
  }

  /** A file that no visit modified is left as it was. */
  lemma {:induction false} FailedFilesUntouched(files: Files, visits: seq<Visit>, path: string)
    requires forall i :: 0 <= i < |visits| && visits[i].VisitFile? && visits[i].path == path
               ==> RunVisits(files, visits).kinds[i] != Modified
    ensures FileAt(RunVisits(files, visits).files, path) == FileAt(files, path)
  {
    hide VisitKind, VisitEffect, FileAt;
    if visits != [] {
      var n := |visits| - 1;
      forall i | 0 <= i < n && visits[..n][i].VisitFile? && visits[..n][i].path == path
        ensures RunVisits(files, visits[..n]).kinds[i] != Modified
      {
        KindsOfFront(files, visits, i);
      }
      FailedFilesUntouched(files, visits[..n], path);
      assert RunVisits(files, visits).kinds[n] == VisitKind(RunVisits(files, visits[..n]).files, visits[n]);
      VisitLeaves(RunVisits(files, visits[..n]).files, visits[n], path);
    }
  }

  // ----- What a run leaves

  /** What adding the header once makes of a file. */
  function Settled(lang: Language, file: File): File {
    match file
    case Unreadable => Unreadable
    case Text(content) => match AddHeader(lang, content) case Added(text) => Text(text) case _ => file
  }

  lemma SettledTwice(lang: Language, file: File)
    ensures Settled(lang, Settled(lang, file)) == Settled(lang, file)
  {
    hide AddHeader;
    if file.Text? && AddHeader(lang, file.content).Added? {
      AddedIsFull(lang, file.content);
    }
  }

  lemma VisitSettles(files: Files, path: string, lang: Language)
    ensures FileAt(VisitEffect(files, VisitFile(path, lang)), path) == Settled(lang, FileAt(files, path))
  {
    hide AddHeader;
    VisitTells(files, path, lang);
  }

  /** Whatever else a run visits and however often it visits a file: a visited file ends as
      adding the header once makes it, and any other file stays as it was. */
  lemma {:induction false} FileAfterRun(files: Files, visits: seq<Visit>, path: string, lang: Language)
    requires forall v :: v in visits && v.VisitFile? && v.path == path ==> v.lang == lang
    ensures
      var after := FileAt(RunVisits(files, visits).files, path);
      if VisitFile(path, lang) in visits
      then after == match FileAt(files, path)
                    case Unreadable => Unreadable
                    case Text(content) =>
                      match AddHeader(lang, content) case Added(text) => Text(text) case _ => Text(content)
      else after == FileAt(files, path)
  {
    hide VisitKind, VisitEffect, AddHeader, FileAt;
    if visits != [] {
      var front, last := visits[..|visits| - 1], visits[|visits| - 1];
      assert visits == front + [last];
      FileAfterRun(files, front, path, lang);
      var before := RunVisits(files, front).files;
      if last.VisitFile? && last.path == path {
        VisitSettles(before, path, lang);
        SettledTwice(lang, FileAt(files, path));
      } else {
        VisitLeaves(before, last, path);
      }
    }
  }

  /** The totals count every visit once, and the exit code tells of any failure. */
  lemma {:induction false} TotalsTell(kinds: seq<Kind>)
    ensures TotalsOf(kinds).modified + TotalsOf(kinds).skipped + TotalsOf(kinds).failed == |kinds|
    ensures TotalsOf(kinds).modified > 0 <==> Modified in kinds
    ensures TotalsOf(kinds).skipped > 0 <==> Unchanged in kinds
    ensures TotalsOf(kinds).failed > 0 <==> Failure in kinds
  {
    if kinds != [] {
      TotalsTell(kinds[..|kinds| - 1]);
      assert kinds == kinds[..|kinds| - 1] + [kinds[|kinds| - 1]];
    }
  }

  // ----- The languages of `main`

  function LanguageOf(extension: string): Option<Language> {
    if extension == ".py" then Some(Python)
    else if extension == ".go" then Some(Go)
    else if extension in [".ts", ".tsx", ".js", ".jsx", ".mjs", ".cjs"] then Some(JsTs)
    else None
  }

  predicate EndsWith(path: string, extension: string) {
    |extension| <= |path| && path[|path| - |extension|..] == extension
  }

  /** `main` pairs each extension with its language, and `rglob` lists files that end in the
      extension. */
  ghost predicate MainJobs(jobs: seq<Job>, list: (string, string) -> Listing) {
    && (forall i :: 0 <= i < |jobs| ==> LanguageOf(jobs[i].extension) == Some(jobs[i].lang))
    && (forall dir, extension :: list(dir, extension).Paths? ==>
          forall path :: path in list(dir, extension).paths ==> EndsWith(path, extension))
  }

  /** The language a path can be visited as, read off its last letter. */
  function LanguageOfPath(path: string): Language {
    if path != "" && path[|path| - 1] == 'y' then Python
    else if path != "" && path[|path| - 1] == 'o' then Go
    else JsTs
  }

  lemma LanguageFits(path: string, extension: string, lang: Language)
    requires LanguageOf(extension) == Some(lang) && EndsWith(path, extension)
    ensures LanguageOfPath(path) == lang
  {
    assert path[|path| - 1] == extension[|extension| - 1];
  }

  lemma {:induction false} PathLanguages(paths: seq<string>, extension: string, lang: Language, v: Visit)
    requires LanguageOf(extension) == Some(lang) && forall path :: path in paths ==> EndsWith(path, extension)
    requires v in VisitsOfPaths(paths, lang)
    ensures v.VisitFile? && v.lang == LanguageOfPath(v.path)
  {
    var front, last := paths[..|paths| - 1], paths[|paths| - 1];
    assert paths == front + [last];
    if v in VisitsOfPaths(front, lang) {
      PathLanguages(front, extension, lang, v);
    } else {
      LanguageFits(last, extension, lang);
    }
  }

  lemma {:induction false} JobLanguages(jobs: seq<Job>, list: (string, string) -> Listing, v: Visit)
    requires MainJobs(jobs, list) && v in VisitsOfJobs(jobs, list) && v.VisitFile?
    ensures v.lang == LanguageOfPath(v.path)
  {
    var front, last := jobs[..|jobs| - 1], jobs[|jobs| - 1];
    if v in VisitsOfJobs(front, list) {
      JobLanguages(front, list, v);
    } else {
      PathLanguages(list(last.dir, last.extension).paths, last.extension, last.lang, v);
    }
  }

  /** In a run of `main` no path is visited as two languages, so the script converges on
      every repository. */
  lemma MainConverges(files: Files, jobs: seq<Job>, list: (string, string) -> Listing)
    requires MainJobs(jobs, list)
    ensures
      var first := RunVisits(files, VisitsOfJobs(jobs, list));
      var second := RunVisits(first.files, VisitsOfJobs(jobs, list));
      && second.files == first.files
      && TotalsOf(second.kinds) == Totals(0, TotalsOf(first.kinds).modified + TotalsOf(first.kinds).skipped,
                                          TotalsOf(first.kinds).failed)
  {
    hide RunVisits, TotalsOf;
    var visits := VisitsOfJobs(jobs, list);
    forall v, w | v in visits && w in visits && v.VisitFile? && w.VisitFile? && v.path == w.path
      ensures v.lang == w.lang
    {
      JobLanguages(jobs, list, v);
      JobLanguages(jobs, list, w);
    }
    SecondRunChangesNothing(files, visits);
  }
}
