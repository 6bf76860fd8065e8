/** The two checks that every OpenAPI document passes before clients are generated from it. */
module OperationIds {
  import opened Json
  import opened Options
  import opened Sequences

  // ----- Documents

  /** The `operationId` as found in the document, of any type, and the tags. */
  datatype Operation = Operation(operationId: Option<Value>, tags: seq<string>)

  datatype MethodEntry = MethodEntry(method_: string, operation: Operation)

  datatype PathEntry = PathEntry(path: string, methods: seq<MethodEntry>)

  /** `spec["paths"]`: two levels of dictionaries in insertion order. */
  type Spec = seq<PathEntry>

  const HTTP_METHODS := {"delete", "get", "head", "options", "patch", "post", "put", "trace"}

  /** One operation of a document. */
  datatype Entry = Entry(path: string, method_: string, operation: Operation)

  function EntriesOf(path: string, methods: seq<MethodEntry>): seq<Entry> {
    if methods == [] then []
    else
      var last := methods[|methods| - 1];
      EntriesOf(path, methods[..|methods| - 1])
      + if last.method_ in HTTP_METHODS then [Entry(path, last.method_, last.operation)] else []
  }

  /** All operations of a document, in the order in which they are visited. */
  function Entries(spec: Spec): seq<Entry> {
    if spec == [] then []
    else
      var last := spec[|spec| - 1];
      Entries(spec[..|spec| - 1]) + EntriesOf(last.path, last.methods)
  }

  function UpperChar(c: char): char {
    if 'a' <= c <= 'z' then (c as int - 32) as char else c
  }

  function Upper(s: string): string {
    seq(|s|, i requires 0 <= i < |s| => UpperChar(s[i]))
  }

  /** `f"{method.upper()} {path}"` */
  function Owner(e: Entry): string {
    Upper(e.method_) + " " + e.path
  }

  predicate IsLetters(s: string) {
    forall i :: 0 <= i < |s| ==> 'a' <= s[i] <= 'z'
  }

  /** An owner names one method and path. */
  lemma OwnerIsUnique(a: Entry, b: Entry)
    requires a.method_ in HTTP_METHODS && b.method_ in HTTP_METHODS
    requires Owner(a) == Owner(b)
    ensures a.method_ == b.method_ && a.path == b.path
  {
    hide IsLetters;
    var m, n := a.method_, b.method_;
    MethodsAreLetters(m);
    MethodsAreLetters(n);
    SpaceEndsTheMethod(a, b);
    SpaceEndsTheMethod(b, a);
    assert Upper(m) == Owner(a)[..|m|] == Upper(n);
    UpperTellsLetters(m, n);
    assert a.path == Owner(a)[|m| + 1..] == b.path;
  }

  lemma MethodsAreLetters(m: string)
    requires m in HTTP_METHODS
    ensures IsLetters(m)
  {
  }

  lemma UpperTellsLetters(m: string, n: string)
    requires IsLetters(m) && IsLetters(n) && Upper(m) == Upper(n)
    ensures m == n
  {
    assert |m| == |Upper(m)| == |n|;
    forall i | 0 <= i < |m| ensures m[i] == n[i] {
      assert Upper(m)[i] == Upper(n)[i];
    }
  }

  /** The owner as it stands in a complaint. */
  lemma OwnerReads(e: Entry)
    ensures e.method_ == "delete" ==> Owner(e) == "DELETE " + e.path
    ensures e.method_ == "get" ==> Owner(e) == "GET " + e.path
    ensures e.method_ == "head" ==> Owner(e) == "HEAD " + e.path
    ensures e.method_ == "options" ==> Owner(e) == "OPTIONS " + e.path
    ensures e.method_ == "patch" ==> Owner(e) == "PATCH " + e.path
    ensures e.method_ == "post" ==> Owner(e) == "POST " + e.path
    ensures e.method_ == "put" ==> Owner(e) == "PUT " + e.path
    ensures e.method_ == "trace" ==> Owner(e) == "TRACE " + e.path
  {
    var m := e.method_;
    assert m == "delete" ==> Upper(m) == "DELETE";
    assert m == "get" ==> Upper(m) == "GET";
    assert m == "head" ==> Upper(m) == "HEAD";
    assert m == "options" ==> Upper(m) == "OPTIONS";
    assert m == "patch" ==> Upper(m) == "PATCH";
    assert m == "post" ==> Upper(m) == "POST";
    assert m == "put" ==> Upper(m) == "PUT";
    assert m == "trace" ==> Upper(m) == "TRACE";
  }

  lemma SpaceEndsTheMethod(a: Entry, b: Entry)
    requires IsLetters(a.method_) && IsLetters(b.method_) && Owner(a) == Owner(b)
    ensures |a.method_| >= |b.method_|
  {
    assert Owner(a)[|a.method_|] == ' ';
    assert forall i :: 0 <= i < |b.method_| ==> Owner(b)[i] == UpperChar(b.method_[i]) != ' ';
  }

  // ----- Operation IDs

  datatype Problem = MissingId(owner: string) | ReusedId(owner: string, id: string, previous: string)

  /** `isinstance(operation_id, str) and operation_id` */
  predicate HasId(e: Entry) {
    NonEmptyString(e.operation.operationId)
  }

  function IdOf(e: Entry): string
    requires HasId(e)
  {
    e.operation.operationId.value.s
  }

  /** What the loop over the operations knows. */
  datatype Scan = Scan(owners: map<string, string>, problems: seq<Problem>)

  function ScanOne(s: Scan, e: Entry): Scan {
    if !HasId(e) then s.(problems := s.problems + [MissingId(Owner(e))])
    else
      var id := IdOf(e);
      var previous := if id in s.owners then s.owners[id] else Owner(e);
      Scan(if id in s.owners then s.owners else s.owners[id := Owner(e)],
           if previous != Owner(e) then s.problems + [ReusedId(Owner(e), id, previous)] else s.problems)
  }

  function ScanAll(entries: seq<Entry>): Scan {
    if entries == [] then Scan(map[], [])
    else ScanOne(ScanAll(entries[..|entries| - 1]), entries[|entries| - 1])
  }

  lemma {:induction false} ScanMore(entries: seq<Entry>, e: Entry)
    ensures ScanAll(entries + [e]) == ScanOne(ScanAll(entries), e)
  {
    assert (entries + [e])[..|entries|] == entries;
  }

  lemma EntriesMore(spec: Spec, i: nat)
    requires i < |spec|
    ensures Entries(spec[..i + 1]) == Entries(spec[..i]) + EntriesOf(spec[i].path, spec[i].methods)
  {
    assert spec[..i + 1][..i] == spec[..i];
  }

  lemma EntriesOfMore(path: string, methods: seq<MethodEntry>, k: nat)
    requires k < |methods|
    ensures EntriesOf(path, methods[..k + 1]) ==
      EntriesOf(path, methods[..k])
      + if methods[k].method_ in HTTP_METHODS then [Entry(path, methods[k].method_, methods[k].operation)] else []
  {
    assert methods[..k + 1][..k] == methods[..k];
  }

  lemma NoEntries(path: string)
    ensures Entries([]) == [] && EntriesOf(path, []) == [] && ScanAll([]) == Scan(map[], [])
  {
  }

  /** `validate_unique_operation_ids`: it raises when it has found a problem. */
  method ValidateUniqueOperationIds(spec: Spec) returns (accepted: bool, problems: seq<Problem>)
    ensures problems == ScanAll(Entries(spec)).problems
    ensures accepted <==> problems == []
  {
    hide Entries, EntriesOf, ScanAll, Owner, HasId;
    var owners: map<string, string> := map[];
    problems := [];
    NoEntries("");
    for i := 0 to |spec|
      invariant Scan(owners, problems) == ScanAll(Entries(spec[..i]))
    {
      var path, methods := spec[i].path, spec[i].methods;
      ghost var before := Entries(spec[..i]);
      NoEntries(path);
      assert methods[..0] == [] && before + [] == before;
      for k := 0 to |methods|
        invariant Scan(owners, problems) == ScanAll(before + EntriesOf(path, methods[..k]))
      {
        EntriesOfMore(path, methods, k);
        ghost var sofar := EntriesOf(path, methods[..k]);
        if methods[k].method_ !in HTTP_METHODS {
          assert sofar + [] == sofar;
          continue;
        }
        var e := Entry(path, methods[k].method_, methods[k].operation);
        ScanMore(before + sofar, e);
        assert before + (sofar + [e]) == (before + sofar) + [e];
        if !HasId(e) {
          problems := problems + [MissingId(Owner(e))];
          continue;
        }
        var id := IdOf(e);
        if id !in owners {
          owners := owners[id := Owner(e)];
        }
        var previous := owners[id];
        if previous != Owner(e) {
          problems := problems + [ReusedId(Owner(e), id, previous)];
        }
      }
      assert methods[..|methods|] == methods;
      EntriesMore(spec, i);
    }
    assert spec[..|spec|] == spec;
    accepted := problems == [];
  }

  // ----- What the scan finds

  function OwnersOf(entries: seq<Entry>): seq<string> {
    seq(|entries|, i requires 0 <= i < |entries| => Owner(entries[i]))
  }

  /** The ID of each operation, None where it is missing. */
  function IdsOf(entries: seq<Entry>): seq<Option<string>> {
    seq(|entries|, i requires 0 <= i < |entries| => if HasId(entries[i]) then Some(IdOf(entries[i])) else None)
  }

  lemma OwnersOfMore(entries: seq<Entry>, e: Entry)
    ensures OwnersOf(entries + [e]) == OwnersOf(entries) + [Owner(e)]
  {
  }

  /** The complaint about an operation, given the operations before it: it has no ID, or the
      first operation with the same ID owns it. */
  function ProblemAfter(before: seq<Entry>, e: Entry): seq<Problem> {
    if !HasId(e) then [MissingId(Owner(e))]
    else if Some(IdOf(e)) !in IdsOf(before) then []
    else [ReusedId(Owner(e), IdOf(e), Owner(before[FirstIndex(IdsOf(before), Some(IdOf(e)))]))]
  }

  function ProblemsOf(entries: seq<Entry>): seq<Problem> {
    if entries == [] then []
    else
      var n := |entries| - 1;
      ProblemsOf(entries[..n]) + ProblemAfter(entries[..n], entries[n])
  }

  /** Every valid ID is owned by the first operation that has it. */
  lemma {:induction false} OwnersAre(entries: seq<Entry>, id: string)
    ensures id in ScanAll(entries).owners <==> Some(id) in IdsOf(entries)
    ensures Some(id) in IdsOf(entries) ==>
      ScanAll(entries).owners[id] == Owner(entries[FirstIndex(IdsOf(entries), Some(id))])
  {
    if entries != [] {
      hide Owner, HasId;
      var front, last := entries[..|entries| - 1], entries[|entries| - 1];
      OwnersAre(front, id);
      assert IdsOf(entries) == IdsOf(front) + [IdsOf(entries)[|front|]];
      if Some(id) in IdsOf(front) {
        FirstIndexOfPrefix(IdsOf(front), IdsOf(entries)[|front|], Some(id));
      } else if Some(id) in IdsOf(entries) {
        FirstIndexIs(IdsOf(entries), Some(id), |front|);
      }
    }
  }

  /** Each complaint is about the right operation and names the right owner, in visiting order. */
  lemma {:induction false} ProblemsAre(entries: seq<Entry>)
    requires NoDuplicates(OwnersOf(entries))
    ensures ScanAll(entries).problems == ProblemsOf(entries)
  {
    if entries != [] {
      hide Owner;
      var front, last := entries[..|entries| - 1], entries[|entries| - 1];
      assert OwnersOf(entries) == OwnersOf(front) + [Owner(last)];
      NoDuplicatesFront(OwnersOf(entries));
      assert OwnersOf(entries)[..|front|] == OwnersOf(front);
      ProblemsAre(front);
      if HasId(last) {
        OwnersAre(front, IdOf(last));
        if Some(IdOf(last)) in IdsOf(front) {
          var k := FirstIndex(IdsOf(front), Some(IdOf(last)));
          assert OwnersOf(front)[k] == Owner(front[k]);
        }
      }
    }
  }

  /** An operation without a valid ID is reported, and one whose ID an earlier operation has is
      reported with that ID and the first operation that has it. */
  lemma {:induction false} ComplaintsName(entries: seq<Entry>, j: nat)
    requires j < |entries|
    ensures !HasId(entries[j]) ==> MissingId(Owner(entries[j])) in ProblemsOf(entries)
    ensures forall k :: 0 <= k < j && HasId(entries[j]) && Same(entries, k, j) && FirstWith(entries, k) ==>
              ReusedId(Owner(entries[j]), IdOf(entries[j]), Owner(entries[k])) in ProblemsOf(entries)
  {
    hide Owner, HasId;
    var n := |entries| - 1;
    var front, last := entries[..n], entries[n];
    if j < n {
      ComplaintsName(front, j);
      forall k | 0 <= k < j && HasId(entries[j]) && Same(entries, k, j) && FirstWith(entries, k)
        ensures Same(front, k, j) && FirstWith(front, k)
      {
        assert forall i :: 0 <= i < k ==> Same(front, i, k) == Same(entries, i, k);
      }
    } else {
      forall k | 0 <= k < n && HasId(last) && Same(entries, k, n) && FirstWith(entries, k)
        ensures ReusedId(Owner(last), IdOf(last), Owner(entries[k])) in ProblemAfter(front, last)
      {
        FirstWithId(front, k, IdOf(last), entries, n);
      }
    }
  }

  /** Two operations have the same `operationId`. */
  predicate Same(entries: seq<Entry>, i: nat, j: nat) {
    i < |entries| && j < |entries| && entries[i].operation.operationId == entries[j].operation.operationId
  }

  /** No earlier operation has the `operationId` of operation `k`. */
  ghost predicate FirstWith(entries: seq<Entry>, k: nat) {
    forall i :: 0 <= i < k ==> !Same(entries, i, k)
  }

  lemma FirstWithId(front: seq<Entry>, k: nat, id: string, entries: seq<Entry>, n: nat)
    requires n < |entries| && front == entries[..n] && k < n && HasId(entries[n]) && id == IdOf(entries[n])
    requires Same(entries, k, n) && FirstWith(entries, k)
    ensures Some(id) in IdsOf(front) && FirstIndex(IdsOf(front), Some(id)) == k
  {
    var ids := IdsOf(front);
    assert ids[k] == Some(id);
    forall i | 0 <= i < k ensures ids[i] != Some(id) {
      assert !Same(entries, i, k);
      assert HasId(front[i]) ==> front[i].operation.operationId == Some(String(IdOf(front[i])));
    }
    FirstIndexIs(ids, Some(id), k);
  }

  /** Every operation is either the owner of a distinct valid ID or has one complaint. */
  lemma {:induction false} ProblemsAndIdsAddUp(entries: seq<Entry>)
    requires NoDuplicates(OwnersOf(entries))
    ensures |ScanAll(entries).problems| + |ScanAll(entries).owners| == |entries|
  {
    if entries != [] {
      hide Owner;
      var front, last := entries[..|entries| - 1], entries[|entries| - 1];
      assert OwnersOf(entries) == OwnersOf(front) + [Owner(last)];
      NoDuplicatesFront(OwnersOf(entries));
      assert OwnersOf(entries)[..|front|] == OwnersOf(front);
      ProblemsAndIdsAddUp(front);
      if HasId(last) {
        OwnersAre(front, IdOf(last));
        if Some(IdOf(last)) in IdsOf(front) {
          var k := FirstIndex(IdsOf(front), Some(IdOf(last)));
          assert OwnersOf(front)[k] == Owner(front[k]);
        }
      }
    }
  }

  lemma {:induction false} NoProblemsWhen(entries: seq<Entry>)
    ensures ProblemsOf(entries) == [] <==> None !in IdsOf(entries) && NoDuplicates(IdsOf(entries))
  {
    if entries != [] {
      var front, last := entries[..|entries| - 1], entries[|entries| - 1];
      var id := if HasId(last) then Some(IdOf(last)) else None;
      assert IdsOf(entries) == IdsOf(front) + [id];
      NoProblemsWhen(front);
      if NoDuplicates(IdsOf(entries)) {
        NoDuplicatesFront(IdsOf(entries));
        assert IdsOf(entries)[..|front|] == IdsOf(front);
      }
      if NoDuplicates(IdsOf(front)) && id !in IdsOf(front) {
        NoDuplicatesAppend(IdsOf(front), id);
      }
    }
  }

  // ----- Operations of a document

  function PathsOf(spec: Spec): seq<string> {
    seq(|spec|, i requires 0 <= i < |spec| => spec[i].path)
  }

  function NamesOf(methods: seq<MethodEntry>): seq<string> {
    seq(|methods|, i requires 0 <= i < |methods| => methods[i].method_)
  }

  /** The keys of the dictionaries differ. */
  ghost predicate IsSpec(spec: Spec) {
    NoDuplicates(PathsOf(spec)) && forall p :: p in spec ==> NoDuplicates(NamesOf(p.methods))
  }

  lemma {:induction false} EntriesOfMembers(path: string, methods: seq<MethodEntry>, e: Entry)
    ensures e in EntriesOf(path, methods) <==>
      e.path == path && e.method_ in HTTP_METHODS && MethodEntry(e.method_, e.operation) in methods
  {
    if methods != [] {
      EntriesOfMembers(path, methods[..|methods| - 1], e);
      assert methods == methods[..|methods| - 1] + [methods[|methods| - 1]];
    }
  }

  ghost predicate IsHttpMethod(m: string) {
    || m == "delete" || m == "get" || m == "head" || m == "options"
    || m == "patch" || m == "post" || m == "put" || m == "trace"
  }

  lemma HttpMethodsAre(m: string)
    ensures m in HTTP_METHODS <==> IsHttpMethod(m)
  {
  }

  /** The operations visited are those of the document under an HTTP method. */
  lemma {:induction false} EntriesMembers(spec: Spec, e: Entry)
    ensures e in Entries(spec) <==>
      IsHttpMethod(e.method_)
      && exists p :: p in spec && p.path == e.path && MethodEntry(e.method_, e.operation) in p.methods
  {
    if spec != [] {
      var front, last := spec[..|spec| - 1], spec[|spec| - 1];
      hide IsHttpMethod;
      HttpMethodsAre(e.method_);
      EntriesMembers(front, e);
      EntriesOfMembers(last.path, last.methods, e);
      assert spec == front + [last];
    }
  }

  lemma {:induction false} MethodOwnersDiffer(before: seq<Entry>, path: string, methods: seq<MethodEntry>)
    requires NoDuplicates(OwnersOf(before)) && NoDuplicates(NamesOf(methods))
    requires forall e :: e in before ==> e.method_ in HTTP_METHODS && e.path != path
    ensures NoDuplicates(OwnersOf(before + EntriesOf(path, methods)))
  {
    if methods == [] {
      assert before + [] == before;
    } else {
      hide Owner;
      var front, last := methods[..|methods| - 1], methods[|methods| - 1];
      NoDuplicatesFront(NamesOf(methods));
      assert NamesOf(methods)[..|front|] == NamesOf(front);
      MethodOwnersDiffer(before, path, front);
      var sofar, e := before + EntriesOf(path, front), Entry(path, last.method_, last.operation);
      if last.method_ in HTTP_METHODS {
        forall f | f in sofar ensures Owner(f) != Owner(e) {
          EntriesOfMembers(path, front, f);
          if f in EntriesOf(path, front) {
            var k :| 0 <= k < |front| && front[k] == MethodEntry(f.method_, f.operation);
            assert NamesOf(front)[k] == f.method_;
          }
          if Owner(f) == Owner(e) {
            OwnerIsUnique(f, e);
          }
        }
        OwnersOfMore(sofar, e);
        NoDuplicatesAppend(OwnersOf(sofar), Owner(e));
        assert before + (EntriesOf(path, front) + [e]) == sofar + [e];
      } else {
        assert EntriesOf(path, front) + [] == EntriesOf(path, front);
      }
    }
  }

  lemma {:induction false} OwnersDiffer(spec: Spec)
    requires IsSpec(spec)
    ensures NoDuplicates(OwnersOf(Entries(spec)))
  {
    if spec != [] {
      var front, last := spec[..|spec| - 1], spec[|spec| - 1];
      NoDuplicatesFront(PathsOf(spec));
      assert PathsOf(spec)[..|front|] == PathsOf(front);
      OwnersDiffer(front);
      forall e | e in Entries(front) ensures e.method_ in HTTP_METHODS && e.path != last.path {
        EntriesMembers(front, e);
        HttpMethodsAre(e.method_);
        var k :| 0 <= k < |front| && front[k].path == e.path;
        assert PathsOf(front)[k] == e.path;
      }
      MethodOwnersDiffer(Entries(front), last.path, last.methods);
    }
  }

  /** Every operation has a valid ID, and no two operations have the same one. */
  ghost predicate IdsIdentify(spec: Spec) {
    && (forall e :: e in Entries(spec) ==> exists id :: id != "" && e.operation.operationId == Some(String(id)))
    && forall e, f :: e in Entries(spec) && f in Entries(spec) && e.operation.operationId == f.operation.operationId
         ==> e.path == f.path && e.method_ == f.method_
  }

  /** The check accepts exactly the documents in which (method, path) -> ID is total and
      injective, and otherwise the complaints are the operations less the distinct valid IDs. */
  lemma AcceptsExactlyWhenIdsIdentify(spec: Spec)
    requires IsSpec(spec)
    ensures ScanAll(Entries(spec)).problems == ProblemsOf(Entries(spec))
    ensures ScanAll(Entries(spec)).problems == [] <==> IdsIdentify(spec)
    ensures |ScanAll(Entries(spec)).problems| + |ScanAll(Entries(spec)).owners| == |Entries(spec)|
  {
    var entries := Entries(spec);
    OwnersDiffer(spec);
    ProblemsAre(entries);
    ProblemsAndIdsAddUp(entries);
    NoProblemsWhen(entries);
    IdentifyWhen(spec);
  }

  lemma IdentifyWhen(spec: Spec)
    requires NoDuplicates(OwnersOf(Entries(spec)))
    ensures IdsIdentify(spec) <==> None !in IdsOf(Entries(spec)) && NoDuplicates(IdsOf(Entries(spec)))
  {
    hide Entries;
    var entries := Entries(spec);
    var ids := IdsOf(entries);
    if None !in ids && NoDuplicates(ids) {
      forall e | e in entries ensures HasId(e) && e.operation.operationId == Some(String(IdOf(e))) {
        var i :| 0 <= i < |entries| && entries[i] == e;
        assert ids[i] != None;
      }
      forall e, f | e in entries && f in entries && e.operation.operationId == f.operation.operationId
        ensures e == f
      {
        var i, j :| 0 <= i < |entries| && 0 <= j < |entries| && entries[i] == e && entries[j] == f;
        assert ids[i] == ids[j];
        assert i < j ==> Differ(ids, i, j);
        assert j < i ==> Differ(ids, j, i);
      }
    }
    if IdsIdentify(spec) {
      forall i, j | 0 <= i < j < |ids| ensures Differ(ids, i, j) {
        assert entries[i] in entries && entries[j] in entries;
        if ids[i] == ids[j] {
          assert Differ(OwnersOf(entries), i, j);
        }
      }
    }
  }

  // ----- Tags

  predicate RepeatsTag(e: Entry) {
    |e.operation.tags| != |SetOf(e.operation.tags)|
  }

  /** The operations that repeat a tag, in visiting order. */
  function Repeating(entries: seq<Entry>): seq<Entry> {
    if entries == [] then []
    else
      var last := entries[|entries| - 1];
      Repeating(entries[..|entries| - 1]) + if RepeatsTag(last) then [last] else []
  }

  /** `validate_unique_operation_tags`: it raises when it has found an operation that repeats a tag. */
  method ValidateUniqueOperationTags(spec: Spec) returns (accepted: bool, duplicates: seq<Entry>)
    ensures duplicates == Repeating(Entries(spec))
    ensures accepted <==> forall e :: e in Entries(spec) ==> NoDuplicates(e.operation.tags)
  {
    hide Entries, EntriesOf, RepeatsTag, Repeating, NoDuplicates;
    duplicates := [];
    NoEntries("");
    NoneRepeats();
    for i := 0 to |spec|
      invariant duplicates == Repeating(Entries(spec[..i]))
    {
      var path, methods := spec[i].path, spec[i].methods;
      ghost var before := Entries(spec[..i]);
      NoEntries(path);
      assert methods[..0] == [] && before + [] == before;
      for k := 0 to |methods|
        invariant duplicates == Repeating(before + EntriesOf(path, methods[..k]))
      {
        EntriesOfMore(path, methods, k);
        ghost var sofar := EntriesOf(path, methods[..k]);
        if methods[k].method_ !in HTTP_METHODS {
          assert sofar + [] == sofar;
          continue;
        }
        var e := Entry(path, methods[k].method_, methods[k].operation);
        RepeatingMore(before + sofar, e);
        assert before + (sofar + [e]) == (before + sofar) + [e];
        if RepeatsTag(e) {
          duplicates := duplicates + [e];
        }
      }
      assert methods[..|methods|] == methods;
      EntriesMore(spec, i);
    }
    assert spec[..|spec|] == spec;
    NoneRepeatsWhen(Entries(spec));
    accepted := duplicates == [];
  }

  lemma NoneRepeats()
    ensures Repeating([]) == []
  {
  }

  lemma RepeatingMore(entries: seq<Entry>, e: Entry)
    ensures Repeating(entries + [e]) == Repeating(entries) + if RepeatsTag(e) then [e] else []
  {
    assert (entries + [e])[..|entries|] == entries;
  }

  /** Comparing the number of tags with the number of distinct ones finds every repetition. */
  lemma {:induction false} SetSizeTellsDuplicates(tags: seq<string>)
    ensures |SetOf(tags)| <= |tags|
    ensures |SetOf(tags)| == |tags| <==> NoDuplicates(tags)
  {
    if tags != [] {
      var front, last := tags[..|tags| - 1], tags[|tags| - 1];
      SetSizeTellsDuplicates(front);
      assert tags == front + [last];
      assert SetOf(tags) == SetOf(front) + {last};
      if NoDuplicates(tags) {
        NoDuplicatesFront(tags);
      }
      if NoDuplicates(front) && last !in front {
        NoDuplicatesAppend(front, last);
      }
    }
  }

  lemma {:induction false} NoneRepeatsWhen(entries: seq<Entry>)
    ensures Repeating(entries) == [] <==> forall e :: e in entries ==> NoDuplicates(e.operation.tags)
  {
    if entries != [] {
      hide NoDuplicates;
      var front, last := entries[..|entries| - 1], entries[|entries| - 1];
      NoneRepeatsWhen(front);
      SetSizeTellsDuplicates(last.operation.tags);
      assert entries == front + [last];
    }
  }
}
