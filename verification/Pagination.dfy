/** Listing every device of the Config Store page by page. */
module Pagination {
  import opened Json
  import opened Options
  import opened Sequences

  // ----- Responses

  /** A response as the loop sees it: not a list of objects, or one entry per row, which is
      the row's uuid if that is a non-empty string. */
  datatype Page<+U> = NotDicts | Rows(rows: seq<Option<U>>) {
    /** The loop gets through the page without raising. */
    predicate Valid() {
      Rows? && forall i :: 0 <= i < |rows| ==> rows[i].Some?
    }
  }

  function UuidOf(row: Value): Option<string> {
    if row.Object? && NonEmptyString(Field(row.fields, "uuid")) then Some(row.fields["uuid"].s) else None
  }

  /** `expect_dict_list`, and what the loop reads from each entry. */
  function PageOf(response: Value): Page<string> {
    if response.Array? && forall i :: 0 <= i < |response.items| ==> response.items[i].Object?
    then Rows(seq(|response.items|, i requires 0 <= i < |response.items| => UuidOf(response.items[i])))
    else NotDicts
  }

  /** The loop gets through a response exactly when it is a list of objects that all have a
      non-empty string as uuid, and then reads those. */
  lemma PageIsValidWhen(response: Value)
    ensures PageOf(response).Valid() <==>
              response.Array? && forall row :: row in response.items ==>
                row.Object? && "uuid" in row.fields && row.fields["uuid"].String? && row.fields["uuid"].s != ""
    ensures PageOf(response).Valid() ==>
              && |PageOf(response).rows| == |response.items|
              && forall i :: 0 <= i < |response.items| ==>
                   PageOf(response).rows[i] == Some(response.items[i].fields["uuid"].s)
  {
    if response.Array? && PageOf(response).Rows? {
      forall i | 0 <= i < |response.items|
        ensures PageOf(response).rows[i] == UuidOf(response.items[i]) && response.items[i] in response.items
      {
      }
    }
  }

  /** A page that ends the listing: empty, or shorter than asked for. */
  predicate IsLast<U>(page: Page<U>, pageSize: nat) {
    page.Valid() && (|page.rows| == 0 || |page.rows| < pageSize)
  }

  /** The loop goes past this page. */
  predicate GoesOn<U>(page: Page<U>, pageSize: nat) {
    page.Valid() && |page.rows| != 0 && |page.rows| >= pageSize
  }

  /** The uuids of some rows, in order, duplicates included. */
  function UuidsOf<U>(rows: seq<Option<U>>): seq<U> {
    if rows == [] then []
    else UuidsOf(rows[..|rows| - 1]) + if rows[|rows| - 1].Some? then [rows[|rows| - 1].value] else []
  }

  /** The uuids of some pages, in order, duplicates included. */
  function Seen<U>(pages: seq<Page<U>>): seq<U> {
    if pages == [] then []
    else
      var last := pages[|pages| - 1];
      Seen(pages[..|pages| - 1]) + if last.Rows? then UuidsOf(last.rows) else []
  }

  lemma NoUuids<U>()
    ensures UuidsOf<U>([]) == [] && Seen<U>([]) == [] && FirstOccurrences<U>([]) == []
  {
  }

  lemma UuidsOfMore<U>(rows: seq<Option<U>>, uuid: U)
    ensures UuidsOf(rows + [Some(uuid)]) == UuidsOf(rows) + [uuid]
  {
    assert (rows + [Some(uuid)])[..|rows|] == rows;
  }

  lemma SeenMore<U>(pages: seq<Page<U>>, page: Page<U>)
    requires page.Rows?
    ensures Seen(pages + [page]) == Seen(pages) + UuidsOf(page.rows)
  {
    assert (pages + [page])[..|pages|] == pages;
  }

  /** The offset of request `k`. */
  function Offset(k: nat, pageSize: nat): nat {
    if k == 0 then 0 else Offset(k - 1, pageSize) + pageSize
  }

  lemma OffsetNext(k: nat, pageSize: nat)
    ensures Offset(0, pageSize) == 0 && Offset(k + 1, pageSize) == Offset(k, pageSize) + pageSize
  {
  }

  lemma {:induction false} OffsetIsProduct(k: nat, pageSize: nat)
    ensures Offset(k, pageSize) == k * pageSize
  {
    if k > 0 {
      OffsetIsProduct(k - 1, pageSize);
    }
  }

  // ----- The loop

  /** How a listing ends. `Pending` is a run that has used up the responses it was given
      and would ask for another page. */
  datatype Listing<+U> = Finished(uuids: seq<U>) | Failed | Pending(uuids: seq<U>)

  /** The loop over the rows of one page; `before` is what was seen in earlier pages. */
  method ReadPage<U(==)>(page: Page<U>, listed: seq<U>, ghost before: seq<U>) returns (uuids: Option<seq<U>>)
    requires page.Rows? && listed == FirstOccurrences(before)
    ensures uuids == if page.Valid() then Some(FirstOccurrences(before + UuidsOf(page.rows))) else None
  {
    hide FirstOccurrences, UuidsOf;
    var rows := page.rows;
    var list := listed;
    NoUuids<U>();
    var seen := SetOf(listed);
    assert before + [] == before;
    for i := 0 to |rows|
      invariant forall j :: 0 <= j < i ==> rows[j].Some?
      invariant list == FirstOccurrences(before + UuidsOf(rows[..i]))
      invariant seen == SetOf(list)
    {
      if rows[i] == None {
        return None;
      }
      var uuid := rows[i].value;
      ghost var past := before + UuidsOf(rows[..i]);
      assert before + UuidsOf(rows[..i + 1]) == past + [uuid] by {
        assert rows[..i + 1] == rows[..i] + [Some(uuid)];
        UuidsOfMore(rows[..i], uuid);
      }
      FirstOccurrencesAppend(past, uuid);
      FirstOccurrencesMembers(past, uuid);
      if uuid !in seen {
        seen := seen + {uuid};
        list := list + [uuid];
      }
    }
    assert rows[..|rows|] == rows;
    uuids := Some(list);
  }

  /** The listing loop against any responses, one per request; `offsets` are the requests made.
      It asks at multiples of the page size, goes past full valid pages only, stops at the
      first other page, and lists each uuid seen once, in first-occurrence order. */
  method ListDeviceUuids<U(==)>(pages: seq<Page<U>>, pageSize: nat) returns (r: Listing<U>, offsets: seq<nat>)
    ensures |offsets| <= |pages|
    ensures forall i :: 0 <= i < |offsets| ==> offsets[i] == Offset(i, pageSize)
    ensures forall i :: 0 <= i < |offsets| - 1 ==> GoesOn(pages[i], pageSize)
    ensures r.Finished? ==> offsets != [] && IsLast(pages[|offsets| - 1], pageSize)
    ensures r.Failed? ==> offsets != [] && !pages[|offsets| - 1].Valid()
    ensures r.Pending? ==> |offsets| == |pages| && (offsets != [] ==> GoesOn(pages[|offsets| - 1], pageSize))
    ensures !r.Failed? ==> r.uuids == FirstOccurrences(Seen(pages[..|offsets|]))
  {
    hide FirstOccurrences, UuidsOf, Seen, Offset;
    var uuids: seq<U> := [];
    var offset := 0;
    offsets := [];
    NoUuids<U>();
    OffsetNext(0, pageSize);
    for n := 0 to |pages|
      invariant |offsets| == n
      invariant forall i :: 0 <= i < n ==> GoesOn(pages[i], pageSize)
      invariant forall i :: 0 <= i < n ==> offsets[i] == Offset(i, pageSize)
      invariant offset == Offset(n, pageSize)
      invariant uuids == FirstOccurrences(Seen(pages[..n]))
    {
      var page := pages[n];
      offsets := offsets + [offset];
      if page.NotDicts? {
        return Failed, offsets;
      }
      var longer := ReadPage(page, uuids, Seen(pages[..n]));
      if longer == None {
        return Failed, offsets;
      }
      assert pages[..n + 1] == pages[..n] + [page];
      SeenMore(pages[..n], page);
      uuids := longer.value;
      if |page.rows| == 0 || |page.rows| < pageSize {
        return Finished(uuids), offsets;
      }
      OffsetNext(n, pageSize);
      offset := offset + pageSize;
    }
    assert pages[..|pages|] == pages;
    r := Pending(uuids);
  }

  lemma {:induction false} UuidsOfMembers<U>(rows: seq<Option<U>>, uuid: U)
    ensures uuid in UuidsOf(rows) <==> Some(uuid) in rows
  {
    if rows != [] {
      UuidsOfMembers(rows[..|rows| - 1], uuid);
      assert rows == rows[..|rows| - 1] + [rows[|rows| - 1]];
    }
  }

  lemma {:induction false} SeenMembers<U>(pages: seq<Page<U>>, uuid: U)
    ensures uuid in Seen(pages) <==> exists page :: page in pages && page.Rows? && Some(uuid) in page.rows
  {
    if pages != [] {
      var front, last := pages[..|pages| - 1], pages[|pages| - 1];
      SeenMembers(front, uuid);
      if last.Rows? {
        UuidsOfMembers(last.rows, uuid);
      }
      assert pages == front + [last];
    }
  }

  /** The uuids of valid rows are read one for one. */
  lemma {:induction false} UuidsOfValid<U>(rows: seq<Option<U>>)
    requires Rows(rows).Valid()
    ensures |UuidsOf(rows)| == |rows| && forall i :: 0 <= i < |rows| ==> rows[i] == Some(UuidsOf(rows)[i])
  {
    if rows != [] {
      UuidsOfValid(rows[..|rows| - 1]);
    }
  }

  /** Whatever the responses, a listing holds each uuid of the pages read exactly once. */
  lemma ListedOnce<U>(pages: seq<Page<U>>, uuid: U)
    ensures NoDuplicates(FirstOccurrences(Seen(pages)))
    ensures uuid in FirstOccurrences(Seen(pages)) <==>
              exists page :: page in pages && page.Rows? && Some(uuid) in page.rows
  {
    FirstOccurrencesDiffer(Seen(pages));
    FirstOccurrencesMembers(Seen(pages), uuid);
    SeenMembers(pages, uuid);
  }

  // ----- A store whose rows do not change

  /** The first rows of a list, all of them if `n` is too big. */
  function UpTo<T>(rows: seq<T>, n: nat): seq<T> {
    if n <= |rows| then rows[..n] else rows
  }

  /** The store's answer to `offset` and `limit`. */
  function Serve<U>(rows: seq<Option<U>>, offset: nat, limit: nat): Page<U> {
    Rows(Slice(rows, offset, limit))
  }

  function Slice<T>(rows: seq<T>, offset: nat, limit: nat): seq<T> {
    if offset >= |rows| then [] else UpTo(rows[offset..], limit)
  }

  /** The answers to the first `n` requests. */
  function ServeAll<U>(rows: seq<Option<U>>, pageSize: nat, n: nat): seq<Page<U>> {
    if n == 0 then [] else ServeAll(rows, pageSize, n - 1) + [Serve(rows, Offset(n - 1, pageSize), pageSize)]
  }

  lemma {:induction false} ServedAt<U>(rows: seq<Option<U>>, pageSize: nat, n: nat, k: nat)
    requires k < n
    ensures |ServeAll(rows, pageSize, n)| == n
    ensures ServeAll(rows, pageSize, n)[k] == Serve(rows, Offset(k, pageSize), pageSize)
  {
    if n > 1 {
      ServedAt(rows, pageSize, n - 1, if k < n - 1 then k else 0);
    }
  }

  lemma {:induction false} UuidsOfAppend<U>(a: seq<Option<U>>, b: seq<Option<U>>)
    ensures UuidsOf(a + b) == UuidsOf(a) + UuidsOf(b)
  {
    if b == [] {
      assert a + b == a;
    } else {
      assert (a + b)[..|a + b| - 1] == a + b[..|b| - 1];
      UuidsOfAppend(a, b[..|b| - 1]);
    }
  }

  lemma ServedNext<T>(rows: seq<T>, offset: nat, limit: nat)
    ensures UpTo(rows, offset + limit) == UpTo(rows, offset) + Slice(rows, offset, limit)
  {
  }

  /** One more page served is that many more rows seen. */
  lemma SeenStep<U>(rows: seq<Option<U>>, pageSize: nat, n: nat)
    requires n > 0
    requires Seen(ServeAll(rows, pageSize, n - 1)) == UuidsOf(UpTo(rows, Offset(n - 1, pageSize)))
    ensures Seen(ServeAll(rows, pageSize, n)) == UuidsOf(UpTo(rows, Offset(n, pageSize)))
  {
    hide UpTo, Slice, Seen, UuidsOf;
    var offset := Offset(n - 1, pageSize);
    SeenMore(ServeAll(rows, pageSize, n - 1), Serve(rows, offset, pageSize));
    ServedNext(rows, offset, pageSize);
    UuidsOfAppend(UpTo(rows, offset), Slice(rows, offset, pageSize));
  }

  lemma {:induction false} SeenOfServed<U>(rows: seq<Option<U>>, pageSize: nat, n: nat)
    ensures Seen(ServeAll(rows, pageSize, n)) == UuidsOf(UpTo(rows, Offset(n, pageSize)))
  {
    hide Slice, Serve;
    if n == 0 {
      assert UpTo(rows, 0) == [];
    } else {
      SeenOfServed(rows, pageSize, n - 1);
      SeenStep(rows, pageSize, n);
    }
  }

  lemma Pages(count: nat, pageSize: nat, k: nat)
    requires pageSize >= 1
    ensures Offset(k, pageSize) + pageSize <= count <==> k < count / pageSize
  {
    OffsetIsProduct(k, pageSize);
    var q := count / pageSize;
    assert q * pageSize <= count < q * pageSize + pageSize;
    if k < q {
      Monotone(k + 1, q, pageSize);
    } else {
      Monotone(q, k, pageSize);
    }
  }

  lemma Monotone(a: nat, b: nat, m: nat)
    requires a <= b
    ensures a * m <= b * m
  {
  }

  /** Page `k` of a fixed list of valid rows is full, and so not the last, exactly when
      k < |rows| / pageSize. */
  lemma ServedPages<U>(rows: seq<Option<U>>, pageSize: nat, k: nat)
    requires pageSize >= 1 && Rows(rows).Valid()
    ensures Serve(rows, Offset(k, pageSize), pageSize).Valid()
    ensures GoesOn(Serve(rows, Offset(k, pageSize), pageSize), pageSize) <==> k < |rows| / pageSize
  {
    Pages(|rows|, pageSize, k);
  }

  /** Of the first |rows| / pageSize + 1 pages exactly the last one ends the listing, and
      together they hold all rows. */
  lemma FixedPages<U>(rows: seq<Option<U>>, pageSize: nat, n: nat)
    requires pageSize >= 1 && Rows(rows).Valid() && n == |rows| / pageSize + 1
    ensures |ServeAll(rows, pageSize, n)| == n
    ensures forall k :: 0 <= k < n ==>
              && ServeAll(rows, pageSize, n)[k].Valid()
              && (GoesOn(ServeAll(rows, pageSize, n)[k], pageSize) <==> k < n - 1)
    ensures Seen(ServeAll(rows, pageSize, n)) == UuidsOf(rows)
  {
    hide UuidsOf, Seen, Serve, ServeAll, GoesOn;
    ServedAt(rows, pageSize, n, 0);
    forall k | 0 <= k < n
      ensures ServeAll(rows, pageSize, n)[k].Valid()
      ensures GoesOn(ServeAll(rows, pageSize, n)[k], pageSize) <==> k < n - 1
    {
      ServedAt(rows, pageSize, n, k);
      ServedPages(rows, pageSize, k);
    }
    SeenOfServed(rows, pageSize, n);
    Pages(|rows|, pageSize, n - 1);
    OffsetNext(n - 1, pageSize);
    assert UpTo(rows, Offset(n, pageSize)) == rows;
  }

  /** A store that serves slices of a fixed list of n valid rows is asked exactly
      n / page_size + 1 times, and every device is listed once, in first-occurrence order. */
  method ListFixedStore<U(==)>(rows: seq<Option<U>>, pageSize: nat) returns (r: Listing<U>, offsets: seq<nat>)
    requires pageSize >= 1 && Rows(rows).Valid()
    ensures r == Finished(FirstOccurrences(UuidsOf(rows)))
    ensures |offsets| == |rows| / pageSize + 1
  {
    hide FirstOccurrences, UuidsOf, Seen, ServeAll, GoesOn, IsLast, Offset;
    var n := |rows| / pageSize + 1;
    var pages := ServeAll(rows, pageSize, n);
    FixedPages(rows, pageSize, n);
    r, offsets := ListDeviceUuids(pages, pageSize);
    LastDoesNotGoOn(pages, pageSize);
    assert pages[..n] == pages;
  }

  lemma LastDoesNotGoOn<U>(pages: seq<Page<U>>, pageSize: nat)
    ensures forall i :: 0 <= i < |pages| ==> !(IsLast(pages[i], pageSize) && GoesOn(pages[i], pageSize))
  {
  }
}
