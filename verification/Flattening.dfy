/**
 How the Go client spreads a parameter value over query or header entries. Go visits map
 entries in no particular order, so what is emitted is a relation, not a function.
 */
module Flattening {
  import opened Decimals
  import opened Options
  import opened Sequences

  // ----- Values

  /** A parameter value as reflection sees it; `Scalar` carries its printed form. */
  datatype Param =
    | Null
    | Scalar(text: string)
    | List(items: seq<Param>)
    | Map(fields: map<string, Param>)

  /** One assignment to the sink. */
  datatype Emission = Emission(key: string, value: string)

  function FieldKey(prefix: string, k: string): string {
    prefix + "[" + k + "]"
  }

  function ItemKey(prefix: string, i: nat, deep: bool): string {
    if deep then FieldKey(prefix, Decimal(i)) else prefix
  }

  // ----- What may be emitted

  /** `out` is what some visiting order of every map in `v` emits. */
  ghost predicate Emits(v: Param, prefix: string, deep: bool, out: seq<Emission>)
    decreases v, 1, 0
  {
    match v
    case Null => out == [Emission(prefix, "null")]
    case Scalar(text) => out == [Emission(prefix, text)]
    case List(items) => EmitsItems(v, |items|, prefix, deep, out)
    case Map(fields) => exists order :: IsOrder(order, fields.Keys) && EmitsFields(v, order, prefix, deep, out)
  }

  ghost predicate EmitsItems(v: Param, n: nat, prefix: string, deep: bool, out: seq<Emission>)
    requires v.List? && n <= |v.items|
    decreases v, 0, n
  {
    if n == 0 then out == []
    else exists i :: 0 <= i <= |out|
           && EmitsItems(v, n - 1, prefix, deep, out[..i])
           && Emits(v.items[n - 1], ItemKey(prefix, n - 1, deep), deep, out[i..])
  }

  ghost predicate EmitsFields(v: Param, order: seq<string>, prefix: string, deep: bool, out: seq<Emission>)
    requires v.Map? && forall k :: k in order ==> k in v.fields
    decreases v, 0, |order|
  {
    if order == [] then out == []
    else
      var n := |order| - 1;
      exists i :: 0 <= i <= |out|
        && EmitsFields(v, order[..n], prefix, deep, out[..i])
        && Emits(v.fields[order[n]], FieldKey(prefix, order[n]), deep, out[i..])
  }

  // ----- What must be emitted

  /** The values emitted under one key, in order. */
  function Select(out: seq<Emission>, key: string): seq<string> {
    if out == [] then []
    else
      var last := out[|out| - 1];
      Select(out[..|out| - 1], key) + if last.key == key then [last.value] else []
  }

  /** `][`, where one bracketed name ends and the next begins. */
  predicate IsJoint(s: string, i: nat) {
    i + 1 < |s| && s[i] == ']' && s[i + 1] == '['
  }

  /** The first joint in `s`, or |s| if there is none. */
  function JointAt(s: string): (i: nat)
    ensures i <= |s|
    ensures i < |s| ==> IsJoint(s, i)
    ensures forall j: nat :: j < i ==> !IsJoint(s, j)
  {
    if |s| < 2 then |s|
    else if IsJoint(s, 0) then 0
    else
      assert forall j: nat :: 0 < j ==> IsJoint(s, j) == IsJoint(s[1..], j - 1);
      1 + JointAt(s[1..])
  }

  predicate HasJoint(s: string) {
    JointAt(s) < |s|
  }

  /** `key` is `own`, or `own` with more brackets behind it. */
  predicate InFamily(own: string, key: string) {
    key == own || own + "[" <= key
  }

  /** The first bracketed name of `key` after `prefix`: it ends at the next joint, or at the
      last character if there is no joint. */
  function FieldIn(prefix: string, key: string): Option<string> {
    if !(prefix + "[" <= key) then None
    else
      var rest := key[|prefix| + 1..];
      if HasJoint(rest) then Some(rest[..JointAt(rest)])
      else if rest != "" && rest[|rest| - 1] == ']' then Some(rest[..|rest| - 1])
      else None
  }

  /** The values a parameter contributes to `key`, read off the key itself: the names in its
      brackets lead to the part of the value that is meant. */
  function At(v: Param, prefix: string, deep: bool, key: string): seq<string>
    decreases v, 1, 0
  {
    match v
    case Null => if key == prefix then ["null"] else []
    case Scalar(text) => if key == prefix then [text] else []
    case List(items) => AtItems(v, |items|, prefix, deep, key)
    case Map(fields) =>
      match FieldIn(prefix, key)
      case None => []
      case Some(k) => if k in fields then At(fields[k], FieldKey(prefix, k), deep, key) else []
  }

  function AtItems(v: Param, n: nat, prefix: string, deep: bool, key: string): seq<string>
    requires v.List? && n <= |v.items|
    decreases v, 0, n
  {
    if n == 0 then []
    else AtItems(v, n - 1, prefix, deep, key) + At(v.items[n - 1], ItemKey(prefix, n - 1, deep), deep, key)
  }

  /** No map key, at any depth, contains a joint, apart from those in `others`. */
  ghost predicate JointFree(v: Param, others: set<string>)
    decreases v
  {
    match v
    case List(items) => forall i :: 0 <= i < |items| ==> JointFree(items[i], others)
    case Map(fields) => forall k :: k in fields ==> (!HasJoint(k) || k in others) && JointFree(fields[k], others)
    case _ => true
  }

  lemma {:induction false} SelectAppend(a: seq<Emission>, b: seq<Emission>, key: string)
    ensures Select(a + b, key) == Select(a, key) + Select(b, key)
  {
    if b == [] {
      assert a + b == a;
    } else {
      assert (a + b)[..|a + b| - 1] == a + b[..|b| - 1];
      SelectAppend(a, b[..|b| - 1], key);
    }
  }

  lemma SelectCut(out: seq<Emission>, i: nat, key: string)
    requires i <= |out|
    ensures Select(out, key) == Select(out[..i], key) + Select(out[i..], key)
  {
    SelectAppend(out[..i], out[i..], key);
    assert out == out[..i] + out[i..];
  }

  /** A joint-free name ends at the first joint behind it, or at the bracket that ends the key. */
  lemma NameEnds(k: string, tail: string)
    requires !HasJoint(k)
    ensures !HasJoint(k + "]")
    ensures HasJoint(k + "][" + tail) && JointAt(k + "][" + tail) == |k|
  {
    var s, t := k + "]", k + "][" + tail;
    forall j: nat | j < |k| ensures !IsJoint(s, j) && !IsJoint(t, j) {
      assert !IsJoint(k, j);
    }
    assert !IsJoint(s, |k|) && IsJoint(t, |k|);
  }

  /** A key of the family `prefix[k]...` names `k`. */
  lemma FieldInOf(prefix: string, k: string, key: string)
    requires !HasJoint(k) && InFamily(FieldKey(prefix, k), key)
    ensures FieldIn(prefix, key) == Some(k)
  {
    hide HasJoint, JointAt;
    var own := FieldKey(prefix, k);
    if key == own {
      NameEnds(k, "");
      assert key[..|prefix| + 1] == prefix + "[" && key[|prefix| + 1..] == k + "]";
    } else {
      var tail := key[|own| + 1..];
      NameEnds(k, tail);
      assert key == own + "[" + tail;
      assert key[..|prefix| + 1] == prefix + "[";
      assert key[|prefix| + 1..] == k + "][" + tail;
      assert (k + "][" + tail)[..|k|] == k;
    }
  }

  /** The key families of two sibling map entries have nothing in common. */
  lemma SiblingsDisjoint(prefix: string, j: string, k: string, key: string)
    requires j != k && !HasJoint(j) && !HasJoint(k) && InFamily(FieldKey(prefix, j), key)
    ensures !InFamily(FieldKey(prefix, k), key)
  {
    FieldInOf(prefix, j, key);
    if InFamily(FieldKey(prefix, k), key) {
      FieldInOf(prefix, k, key);
    }
  }

  lemma FamilyOfItem(prefix: string, i: nat, deep: bool, key: string)
    requires InFamily(ItemKey(prefix, i, deep), key)
    ensures InFamily(prefix, key)
  {
    if deep {
      var own := ItemKey(prefix, i, deep);
      assert own[..|prefix| + 1] == prefix + "[";
      assert key[..|prefix| + 1] == own[..|prefix| + 1];
    }
  }

  /** Every key a value contributes to is in the family of the value's own prefix. */
  lemma {:induction false} AtUnderPrefix(v: Param, prefix: string, deep: bool, key: string)
    requires !InFamily(prefix, key)
    ensures At(v, prefix, deep, key) == []
    decreases v, 1, 0
  {
    match v
    case List(items) => AtItemsUnderPrefix(v, |items|, prefix, deep, key);
    case Map(fields) =>
      assert FieldIn(prefix, key) == None;
    case _ =>
  }

  lemma {:induction false} AtItemsUnderPrefix(v: Param, n: nat, prefix: string, deep: bool, key: string)
    requires v.List? && n <= |v.items| && !InFamily(prefix, key)
    ensures AtItems(v, n, prefix, deep, key) == []
    decreases v, 0, n
  {
    if n > 0 {
      AtItemsUnderPrefix(v, n - 1, prefix, deep, key);
      if InFamily(ItemKey(prefix, n - 1, deep), key) {
        FamilyOfItem(prefix, n - 1, deep, key);
      }
      AtUnderPrefix(v.items[n - 1], ItemKey(prefix, n - 1, deep), deep, key);
    }
  }

  /** Whatever order Go visits the maps in, the values emitted under each key are those `At`
      reads off the key. */
  lemma {:induction false} EmitsAt(v: Param, prefix: string, deep: bool, out: seq<Emission>, key: string)
    requires JointFree(v, {}) && Emits(v, prefix, deep, out)
    ensures Select(out, key) == At(v, prefix, deep, key)
    decreases v, 1, 0
  {
    match v
    case Null => assert out[..0] == [];
    case Scalar(_) => assert out[..0] == [];
    case List(items) => EmitsAtItems(v, |items|, prefix, deep, out, key);
    case Map(fields) =>
      var order :| IsOrder(order, fields.Keys) && EmitsFields(v, order, prefix, deep, out);
      EmitsAtFields(v, order, prefix, deep, out, key);
      assert forall k :: k in fields <==> k in SetOf(order);
  }

  lemma {:induction false} EmitsAtItems(v: Param, n: nat, prefix: string, deep: bool, out: seq<Emission>, key: string)
    requires JointFree(v, {}) && v.List? && n <= |v.items| && EmitsItems(v, n, prefix, deep, out)
    ensures Select(out, key) == AtItems(v, n, prefix, deep, key)
    decreases v, 0, n
  {
    if n > 0 {
      var i :| 0 <= i <= |out|
        && EmitsItems(v, n - 1, prefix, deep, out[..i])
        && Emits(v.items[n - 1], ItemKey(prefix, n - 1, deep), deep, out[i..]);
      EmitsAtItems(v, n - 1, prefix, deep, out[..i], key);
      EmitsAt(v.items[n - 1], ItemKey(prefix, n - 1, deep), deep, out[i..], key);
      SelectCut(out, i, key);
    }
  }

  /** One field contributes to `key` only if `key` names the field. */
  lemma FieldContributes(v: Param, k: string, prefix: string, deep: bool, key: string)
    requires v.Map? && k in v.fields && !HasJoint(k)
    ensures FieldIn(prefix, key) != Some(k) ==> At(v.fields[k], FieldKey(prefix, k), deep, key) == []
  {
    if InFamily(FieldKey(prefix, k), key) {
      FieldInOf(prefix, k, key);
    } else {
      AtUnderPrefix(v.fields[k], FieldKey(prefix, k), deep, key);
    }
  }

  /** What the fields visited so far contribute. */
  function AtFields(v: Param, order: seq<string>, prefix: string, deep: bool, key: string): seq<string>
    requires v.Map? && forall k :: k in order ==> k in v.fields
  {
    match FieldIn(prefix, key)
    case None => []
    case Some(k) => if k in order then At(v.fields[k], FieldKey(prefix, k), deep, key) else []
  }

  lemma AtFieldsMore(v: Param, order: seq<string>, k: string, prefix: string, deep: bool, key: string)
    requires v.Map? && (forall j :: j in order ==> j in v.fields) && k in v.fields
    requires k !in order && !HasJoint(k)
    ensures AtFields(v, order + [k], prefix, deep, key)
         == AtFields(v, order, prefix, deep, key) + At(v.fields[k], FieldKey(prefix, k), deep, key)
  {
    hide FieldIn, At;
    FieldContributes(v, k, prefix, deep, key);
  }

  lemma {:induction false} EmitsAtFields(v: Param, order: seq<string>, prefix: string, deep: bool,
                                         out: seq<Emission>, key: string)
    requires JointFree(v, {}) && v.Map? && NoDuplicates(order) && forall k :: k in order ==> k in v.fields
    requires EmitsFields(v, order, prefix, deep, out)
    ensures Select(out, key) == AtFields(v, order, prefix, deep, key)
    decreases v, 0, |order|
  {
    hide Emits, At, FieldIn, FieldKey, NoDuplicates;
    if order != [] {
      var front, k := order[..|order| - 1], order[|order| - 1];
      var i :| 0 <= i <= |out|
        && EmitsFields(v, front, prefix, deep, out[..i])
        && Emits(v.fields[k], FieldKey(prefix, k), deep, out[i..]);
      NoDuplicatesFront(order);
      EmitsAtFields(v, front, prefix, deep, out[..i], key);
      EmitsAt(v.fields[k], FieldKey(prefix, k), deep, out[i..], key);
      SelectCut(out, i, key);
      AtFieldsMore(v, front, k, prefix, deep, key);
      assert order == front + [k];
    }
  }

  // ----- The sinks

  /** `url.Values`, with a list of values per key, or a header map, with one. */
  datatype Sink = Values(lists: map<string, seq<string>>) | Headers(texts: map<string, string>)

  /** What a sink holds under one key. */
  function Slot(sink: Sink, key: string): Option<seq<string>> {
    match sink
    case Values(lists) => if key in lists then Some(lists[key]) else None
    case Headers(texts) => if key in texts then Some([texts[key]]) else None
  }

  /** `valuesMap.Get(key)` */
  function First(slot: Option<seq<string>>): string {
    if slot.Some? && slot.value != [] then slot.value[0] else ""
  }

  /** One value added to a slot: headers overwrite, csv joins on to a non-empty first value. */
  function AddToSlot(headers: bool, csv: bool, slot: Option<seq<string>>, value: string): Option<seq<string>> {
    if headers then Some([value])
    else if csv && First(slot) != "" then Some([First(slot) + "," + value])
    else Some((if slot.Some? then slot.value else []) + [value])
  }

  function AddAllToSlot(headers: bool, csv: bool, slot: Option<seq<string>>, values: seq<string>): Option<seq<string>> {
    if values == [] then slot
    else AddToSlot(headers, csv, AddAllToSlot(headers, csv, slot, values[..|values| - 1]), values[|values| - 1])
  }

  /** The end of `parameterAddToHeaderOrQuery`: one value goes to the sink. */
  function Assign(sink: Sink, csv: bool, e: Emission): Sink {
    match sink
    case Values(lists) =>
      var earlier := if e.key in lists then lists[e.key] else [];
      if csv && First(Slot(sink, e.key)) != ""
      then Values(lists[e.key := [First(Slot(sink, e.key)) + "," + e.value]])
      else Values(lists[e.key := earlier + [e.value]])
    case Headers(texts) => Headers(texts[e.key := e.value])
  }

  function AssignAll(sink: Sink, csv: bool, out: seq<Emission>): Sink {
    if out == [] then sink else Assign(AssignAll(sink, csv, out[..|out| - 1]), csv, out[|out| - 1])
  }

  lemma AssignSlot(sink: Sink, csv: bool, e: Emission, key: string)
    ensures Assign(sink, csv, e).Headers? == sink.Headers?
    ensures Slot(Assign(sink, csv, e), key)
         == if key == e.key then AddToSlot(sink.Headers?, csv, Slot(sink, key), e.value) else Slot(sink, key)
  {
  }

  /** A sink's slot after some emissions depends only on the values emitted under its key. */
  lemma {:induction false} AssignAllSlot(sink: Sink, csv: bool, out: seq<Emission>, key: string)
    ensures AssignAll(sink, csv, out).Headers? == sink.Headers?
    ensures Slot(AssignAll(sink, csv, out), key) == AddAllToSlot(sink.Headers?, csv, Slot(sink, key), Select(out, key))
  {
    if out != [] {
      var front, last := out[..|out| - 1], out[|out| - 1];
      AssignAllSlot(sink, csv, front, key);
      AssignSlot(AssignAll(sink, csv, front), csv, last, key);
      var values := Select(front, key);
      assert (values + [last.value])[..|values|] == values;
      assert values + [] == values;
    }
  }

  lemma SameSlots(a: Sink, b: Sink)
    requires a.Headers? == b.Headers? && forall key :: Slot(a, key) == Slot(b, key)
    ensures a == b
  {
    if a.Headers? {
      assert forall key :: key in a.texts <==> Slot(a, key).Some?;
      assert forall key :: key in b.texts <==> Slot(b, key).Some?;
      forall key | key in a.texts ensures a.texts[key] == b.texts[key] {
        assert Slot(a, key).value[0] == Slot(b, key).value[0];
      }
      assert a.texts == b.texts;
    } else {
      assert forall key :: key in a.lists <==> Slot(a, key).Some?;
      assert forall key :: key in b.lists <==> Slot(b, key).Some?;
      forall key | key in a.lists ensures a.lists[key] == b.lists[key] {
        assert Slot(a, key).value == Slot(b, key).value;
      }
      assert a.lists == b.lists;
    }
  }

  // ----- Results

  /** Confluence: any two ways of visiting the maps of a value leave the same sink, in form,
      deepObject and csv modes, for query values and for headers. */
  lemma FlatteningIsConfluent(v: Param, prefix: string, deep: bool, csv: bool, sink: Sink,
                              a: seq<Emission>, b: seq<Emission>)
    requires JointFree(v, {}) && Emits(v, prefix, deep, a) && Emits(v, prefix, deep, b)
    ensures AssignAll(sink, csv, a) == AssignAll(sink, csv, b)
  {
    hide AddAllToSlot, Slot, AssignAll, At, Emits, Select;
    forall key ensures Slot(AssignAll(sink, csv, a), key) == Slot(AssignAll(sink, csv, b), key) {
      EmitsAt(v, prefix, deep, a, key);
      EmitsAt(v, prefix, deep, b, key);
      AssignAllSlot(sink, csv, a, key);
      AssignAllSlot(sink, csv, b, key);
    }
    AssignAllSlot(sink, csv, a, "");
    AssignAllSlot(sink, csv, b, "");
    SameSlots(AssignAll(sink, csv, a), AssignAll(sink, csv, b));
  }

  /** The sink a parameter is added to. */
  class ParameterSink {
    var sink: Sink

    constructor (sink: Sink)
      ensures this.sink == sink
    {
      this.sink := sink;
    }

    /** `parameterAddToHeaderOrQuery`: maps are visited in an arbitrary order. When no map
        key has a joint, each key of the sink ends up with what it had plus the values the
        parameter has for it, whatever the order. Without csv a query gains one value per leaf. */
    method AddParameter(prefix: string, v: Param, deep: bool, csv: bool)
      modifies this
      ensures sink.Headers? == old(sink).Headers?
      ensures exists out :: Emits(v, prefix, deep, out) && sink == AssignAll(old(sink), csv, out)
      ensures !csv && old(sink).Values? ==>
        sink.Values? && TotalValues(sink.lists) == TotalValues(old(sink).lists) + Leaves(v)
      ensures JointFree(v, {}) ==>
        forall key ::
          Slot(sink, key) == AddAllToSlot(sink.Headers?, csv, Slot(old(sink), key), At(v, prefix, deep, key))
    {
      var out := Add(prefix, v, deep, csv);
      if !csv && old(sink).Values? {
        QueryGrowsByEmissions(old(sink).lists, out);
        EmissionsAreLeaves(v, prefix, deep, out);
      }
      forall key | JointFree(v, {})
        ensures Slot(sink, key) == AddAllToSlot(sink.Headers?, csv, Slot(old(sink), key), At(v, prefix, deep, key))
      {
        EmitsAt(v, prefix, deep, out, key);
        AssignAllSlot(old(sink), csv, out, key);
      }
      AssignAllSlot(old(sink), csv, out, "");
    }

    /** The recursion, with the assignments it made. */
    method Add(prefix: string, v: Param, deep: bool, csv: bool) returns (ghost out: seq<Emission>)
      modifies this
      ensures Emits(v, prefix, deep, out)
      ensures sink == AssignAll(old(sink), csv, out)
      decreases v, 1
    {
      match v
      case Null => out := AddOne(Emission(prefix, "null"), csv);
      case Scalar(text) => out := AddOne(Emission(prefix, text), csv);
      case List(items) => out := AddItems(prefix, v, deep, csv);
      case Map(fields) => out := AddFields(prefix, v, deep, csv);
    }

    method AddOne(e: Emission, csv: bool) returns (ghost out: seq<Emission>)
      modifies this
      ensures out == [e] && sink == AssignAll(old(sink), csv, out)
    {
      sink := Assign(sink, csv, e);
      out := [e];
      assert out[..0] == [];
    }

    method AddItems(prefix: string, v: Param, deep: bool, csv: bool) returns (ghost out: seq<Emission>)
      requires v.List?
      modifies this
      ensures EmitsItems(v, |v.items|, prefix, deep, out)
      ensures sink == AssignAll(old(sink), csv, out)
      decreases v, 0
    {
      out := [];
      for i := 0 to |v.items|
        invariant EmitsItems(v, i, prefix, deep, out)
        invariant sink == AssignAll(old(sink), csv, out)
      {
        ghost var before := out;
        var more := Add(ItemKey(prefix, i, deep), v.items[i], deep, csv);
        out := before + more;
        AssignAllAppend(old(sink), csv, before, more);
        assert out[..|before|] == before && out[|before|..] == more;
      }
    }

    method AddFields(prefix: string, v: Param, deep: bool, csv: bool) returns (ghost out: seq<Emission>)
      requires v.Map?
      modifies this
      ensures Emits(v, prefix, deep, out)
      ensures sink == AssignAll(old(sink), csv, out)
      decreases v, 0
    {
      hide EmitsFields, Emits, AssignAll, NoDuplicates;
      out := [];
      var rest := v.fields.Keys;
      ghost var order: seq<string> := [];
      NothingVisited(v, prefix, deep, csv, sink);
      while rest != {}
        invariant rest <= v.fields.Keys
        invariant NoDuplicates(order) && SetOf(order) == v.fields.Keys - rest
        invariant (forall j :: j in order ==> j in v.fields) && EmitsFields(v, order, prefix, deep, out)
        invariant sink == AssignAll(old(sink), csv, out)
        decreases rest
      {
        var k :| k in rest;
        rest := rest - {k};
        ghost var before := out;
        var more := Add(FieldKey(prefix, k), v.fields[k], deep, csv);
        out := before + more;
        AssignAllAppend(old(sink), csv, before, more);
        EmitsOneMoreField(v, order, k, prefix, deep, before, more);
        OneMoreVisited(order, k, v.fields.Keys - rest);
        order := order + [k];
      }
      EmitsAllFields(v, order, prefix, deep, out);
    }
  }

  lemma NothingVisited(v: Param, prefix: string, deep: bool, csv: bool, sink: Sink)
    requires v.Map?
    ensures EmitsFields(v, [], prefix, deep, []) && AssignAll(sink, csv, []) == sink && NoDuplicates<string>([])
  {
  }

  lemma EmitsOneMoreField(v: Param, order: seq<string>, k: string, prefix: string, deep: bool,
                          before: seq<Emission>, more: seq<Emission>)
    requires v.Map? && (forall j :: j in order ==> j in v.fields) && k in v.fields
    requires EmitsFields(v, order, prefix, deep, before) && Emits(v.fields[k], FieldKey(prefix, k), deep, more)
    ensures forall j :: j in order + [k] ==> j in v.fields
    ensures EmitsFields(v, order + [k], prefix, deep, before + more)
  {
    hide Emits;
    var out := before + more;
    assert out[..|before|] == before && out[|before|..] == more;
    assert (order + [k])[..|order|] == order && (order + [k])[|order|] == k;
  }

  lemma EmitsAllFields(v: Param, order: seq<string>, prefix: string, deep: bool, out: seq<Emission>)
    requires v.Map? && (forall j :: j in order ==> j in v.fields)
    requires NoDuplicates(order) && SetOf(order) == v.fields.Keys && EmitsFields(v, order, prefix, deep, out)
    ensures Emits(v, prefix, deep, out)
  {
    hide EmitsFields, NoDuplicates;
    assert IsOrder(order, v.fields.Keys);
  }

  lemma {:induction false} AssignAllAppend(sink: Sink, csv: bool, a: seq<Emission>, b: seq<Emission>)
    ensures AssignAll(sink, csv, a + b) == AssignAll(AssignAll(sink, csv, a), csv, b)
  {
    if b == [] {
      assert a + b == a;
    } else {
      assert (a + b)[..|a + b| - 1] == a + b[..|b| - 1];
      AssignAllAppend(sink, csv, a, b[..|b| - 1]);
    }
  }

  // ----- Simple values

  /** A list of scalars is emitted in order: under the key itself, or in deepObject mode under
      the key with the index in brackets. */
  lemma ListEmits(v: Param, prefix: string, deep: bool, out: seq<Emission>)
    requires v.List? && (forall i :: 0 <= i < |v.items| ==> v.items[i].Scalar?) && Emits(v, prefix, deep, out)
    ensures |out| == |v.items|
    ensures forall i :: 0 <= i < |out| ==>
              out[i] == Emission(if deep then prefix + "[" + Decimal(i) + "]" else prefix, v.items[i].text)
  {
    hide Emits, Decimal;
    EmitsList(v, prefix, deep, out);
    ItemsEmit(v, |v.items|, prefix, deep, out);
  }

  lemma EmitsList(v: Param, prefix: string, deep: bool, out: seq<Emission>)
    requires v.List? && Emits(v, prefix, deep, out)
    ensures EmitsItems(v, |v.items|, prefix, deep, out)
  {
  }

  lemma EmitsScalar(v: Param, prefix: string, deep: bool, out: seq<Emission>)
    requires v.Scalar? && Emits(v, prefix, deep, out)
    ensures out == [Emission(prefix, v.text)]
  {
  }

  lemma {:induction false} ItemsEmit(v: Param, n: nat, prefix: string, deep: bool, out: seq<Emission>)
    requires v.List? && n <= |v.items| && (forall i :: 0 <= i < |v.items| ==> v.items[i].Scalar?)
    requires EmitsItems(v, n, prefix, deep, out)
    ensures |out| == n
    ensures forall i :: 0 <= i < n ==> out[i] == Emission(ItemKey(prefix, i, deep), v.items[i].text)
  {
    hide Emits, ItemKey;
    if n > 0 {
      var i :| 0 <= i <= |out|
        && EmitsItems(v, n - 1, prefix, deep, out[..i])
        && Emits(v.items[n - 1], ItemKey(prefix, n - 1, deep), deep, out[i..]);
      ItemsEmit(v, n - 1, prefix, deep, out[..i]);
      EmitsScalar(v.items[n - 1], ItemKey(prefix, n - 1, deep), deep, out[i..]);
      assert out == out[..i] + out[i..];
    }
  }

  /** A scalar is emitted as it is printed, and a missing value as `null`. */
  lemma SingleEmits(v: Param, prefix: string, deep: bool, out: seq<Emission>)
    requires (v.Null? || v.Scalar?) && Emits(v, prefix, deep, out)
    ensures out == [Emission(prefix, if v.Null? then "null" else v.text)]
  {
  }

  /** A map of scalars is emitted with each name in brackets behind the key, in any order. */
  lemma MapEmits(v: Param, prefix: string, deep: bool, out: seq<Emission>, k: string)
    requires v.Map? && (forall j :: j in v.fields ==> v.fields[j].Scalar?) && Emits(v, prefix, deep, out)
    requires k in v.fields
    ensures Emission(prefix + "[" + k + "]", v.fields[k].text) in out
  {
    var order :| IsOrder(order, v.fields.Keys) && EmitsFields(v, order, prefix, deep, out);
    assert k in SetOf(order);
    FieldsEmit(v, order, prefix, deep, out, k);
  }

  lemma {:induction false} FieldsEmit(v: Param, order: seq<string>, prefix: string, deep: bool, out: seq<Emission>,
                                      k: string)
    requires v.Map? && (forall j :: j in order ==> j in v.fields) && (forall j :: j in v.fields ==> v.fields[j].Scalar?)
    requires EmitsFields(v, order, prefix, deep, out) && k in order
    ensures Emission(prefix + "[" + k + "]", v.fields[k].text) in out
  {
    hide Emits;
    var front, last := order[..|order| - 1], order[|order| - 1];
    var i :| 0 <= i <= |out|
      && EmitsFields(v, front, prefix, deep, out[..i])
      && Emits(v.fields[last], FieldKey(prefix, last), deep, out[i..]);
    assert out == out[..i] + out[i..] && order == front + [last];
    if k in front {
      FieldsEmit(v, front, prefix, deep, out[..i], k);
    } else {
      EmitsScalar(v.fields[k], FieldKey(prefix, k), deep, out[i..]);
    }
  }

  /** In csv mode the values of a new key are joined by commas, if the first is not empty. */
  lemma {:induction false} CsvJoins(values: seq<string>)
    requires values != [] && values[0] != ""
    ensures AddAllToSlot(false, true, None, values) == Some([Join(values, ',')])
    ensures Join(values, ',') != ""
  {
    var front, last := values[..|values| - 1], values[|values| - 1];
    if front == [] {
      assert values == [last] && AddAllToSlot(false, true, None, front) == None;
      assert [] + [last] == [last];
      assert AddToSlot(false, true, None, last) == Some([last]);
      assert Join(values, ',') == last;
    } else {
      CsvJoins(front);
      assert values == front + [last];
      JoinLast(front, last, ',');
    }
  }

  /** Of several values for one header the last one stays. */
  lemma HeaderKeepsLast(csv: bool, slot: Option<seq<string>>, values: seq<string>)
    requires values != []
    ensures AddAllToSlot(true, csv, slot, values) == Some([values[|values| - 1]])
  {
  }

  // ----- Counting leaves

  /** The scalars and nulls of a value. */
  ghost function Leaves(v: Param): nat
    decreases v, 1, 0
  {
    match v
    case Null => 1
    case Scalar(_) => 1
    case List(items) => LeavesOfItems(v, |items|)
    case Map(fields) => LeavesOfFields(v, fields.Keys)
  }

  ghost function LeavesOfItems(v: Param, n: nat): nat
    requires v.List? && n <= |v.items|
    decreases v, 0, n
  {
    if n == 0 then 0 else LeavesOfItems(v, n - 1) + Leaves(v.items[n - 1])
  }

  ghost function LeavesOfFields(v: Param, keys: set<string>): nat
    requires v.Map? && keys <= v.fields.Keys
    decreases v, 0, |keys|
  {
    if keys == {} then 0
    else
      var k :| k in keys;
      Leaves(v.fields[k]) + LeavesOfFields(v, keys - {k})
  }

  lemma {:induction false} LeavesPick(v: Param, keys: set<string>, k: string)
    requires v.Map? && keys <= v.fields.Keys && k in keys
    ensures LeavesOfFields(v, keys) == Leaves(v.fields[k]) + LeavesOfFields(v, keys - {k})
    decreases |keys|
  {
    var j :| j in keys && LeavesOfFields(v, keys) == Leaves(v.fields[j]) + LeavesOfFields(v, keys - {j});
    if j != k {
      LeavesPick(v, keys - {j}, k);
      LeavesPick(v, keys - {k}, j);
      assert keys - {j} - {k} == keys - {k} - {j};
    }
  }

  /** One value is emitted per leaf, whatever the order and whatever the keys. */
  lemma {:induction false} EmissionsAreLeaves(v: Param, prefix: string, deep: bool, out: seq<Emission>)
    requires Emits(v, prefix, deep, out)
    ensures |out| == Leaves(v)
    decreases v, 1, 0
  {
    match v
    case List(items) => ItemEmissionsAreLeaves(v, |items|, prefix, deep, out);
    case Map(fields) =>
      var order :| IsOrder(order, fields.Keys) && EmitsFields(v, order, prefix, deep, out);
      FieldEmissionsAreLeaves(v, order, prefix, deep, out);
    case _ =>
  }

  lemma {:induction false} ItemEmissionsAreLeaves(v: Param, n: nat, prefix: string, deep: bool, out: seq<Emission>)
    requires v.List? && n <= |v.items| && EmitsItems(v, n, prefix, deep, out)
    ensures |out| == LeavesOfItems(v, n)
    decreases v, 0, n
  {
    if n > 0 {
      var i :| 0 <= i <= |out|
        && EmitsItems(v, n - 1, prefix, deep, out[..i])
        && Emits(v.items[n - 1], ItemKey(prefix, n - 1, deep), deep, out[i..]);
      ItemEmissionsAreLeaves(v, n - 1, prefix, deep, out[..i]);
      EmissionsAreLeaves(v.items[n - 1], ItemKey(prefix, n - 1, deep), deep, out[i..]);
    }
  }

  lemma {:induction false} FieldEmissionsAreLeaves(v: Param, order: seq<string>, prefix: string, deep: bool,
                                                   out: seq<Emission>)
    requires v.Map? && NoDuplicates(order) && (forall k :: k in order ==> k in v.fields)
    requires EmitsFields(v, order, prefix, deep, out)
    ensures SetOf(order) <= v.fields.Keys && |out| == LeavesOfFields(v, SetOf(order))
    decreases v, 0, |order|
  {
    if order == [] {
      assert SetOf(order) == {};
    } else {
      var front, k := order[..|order| - 1], order[|order| - 1];
      var i :| 0 <= i <= |out|
        && EmitsFields(v, front, prefix, deep, out[..i])
        && Emits(v.fields[k], FieldKey(prefix, k), deep, out[i..]);
      NoDuplicatesFront(order);
      FieldEmissionsAreLeaves(v, front, prefix, deep, out[..i]);
      EmissionsAreLeaves(v.fields[k], FieldKey(prefix, k), deep, out[i..]);
      LeavesPick(v, SetOf(order), k);
      assert order == front + [k];
      assert SetOf(order) - {k} == SetOf(front);
    }
  }

  /** Without csv, `url.Values` grows under each key by exactly the values emitted for it. */
  lemma {:induction false} QueryKeepsEveryValue(slot: Option<seq<string>>, values: seq<string>)
    ensures AddAllToSlot(false, false, slot, values)
         == if values == [] then slot else Some((if slot.Some? then slot.value else []) + values)
  {
    if values != [] {
      var front := values[..|values| - 1];
      QueryKeepsEveryValue(slot, front);
      var before := if slot.Some? then slot.value else [];
      assert before + front + [values[|values| - 1]] == before + values;
      assert before + [] == before;
    }
  }

  /** The number of values over all keys of a query. */
  ghost function TotalValues(lists: map<string, seq<string>>): nat
    decreases |lists|
  {
    if lists == map[] then 0
    else
      var k :| k in lists;
      FewerKeys(lists, k);
      |lists[k]| + TotalValues(lists - {k})
  }

  lemma FewerKeys(lists: map<string, seq<string>>, k: string)
    requires k in lists
    ensures |lists - {k}| < |lists|
  {
    assert (lists - {k}).Keys == lists.Keys - {k};
  }

  lemma {:induction false} TotalPick(lists: map<string, seq<string>>, k: string)
    requires k in lists
    ensures TotalValues(lists) == |lists[k]| + TotalValues(lists - {k})
    decreases |lists|
  {
    var j :| j in lists && TotalValues(lists) == |lists[j]| + TotalValues(lists - {j});
    if j != k {
      FewerKeys(lists, j);
      FewerKeys(lists, k);
      TotalPick(lists - {j}, k);
      TotalPick(lists - {k}, j);
      assert lists - {j} - {k} == lists - {k} - {j};
    }
  }

  lemma OneMoreValue(lists: map<string, seq<string>>, e: Emission)
    ensures Assign(Values(lists), false, e).Values?
    ensures TotalValues(Assign(Values(lists), false, e).lists) == TotalValues(lists) + 1
  {
    var after := Assign(Values(lists), false, e).lists;
    TotalPick(after, e.key);
    assert after - {e.key} == lists - {e.key};
    if e.key in lists {
      TotalPick(lists, e.key);
    } else {
      assert lists - {e.key} == lists;
    }
  }

  /** Without csv, a query grows by one value for each emission: none is overwritten. */
  lemma {:induction false} QueryGrowsByEmissions(lists: map<string, seq<string>>, out: seq<Emission>)
    ensures AssignAll(Values(lists), false, out).Values?
    ensures TotalValues(AssignAll(Values(lists), false, out).lists) == TotalValues(lists) + |out|
  {
    if out != [] {
      hide Assign;
      QueryGrowsByEmissions(lists, out[..|out| - 1]);
      OneMoreValue(AssignAll(Values(lists), false, out[..|out| - 1]).lists, out[|out| - 1]);
    }
  }

  // ----- Exactly the joint-free keys are harmless

  /** Every way of visiting the maps of `v` leaves the same sink, from any sink, in any mode. */
  ghost predicate Confluent(v: Param) {
    forall prefix, deep, csv, sink, a, b :: Emits(v, prefix, deep, a) && Emits(v, prefix, deep, b)
      ==> AssignAll(sink, csv, a) == AssignAll(sink, csv, b)
  }

  /** The scalar "1" behind the names between the joints of `k`. */
  function Chain(k: string): Param
    decreases |k|
  {
    if HasJoint(k) then Map(map[k[..JointAt(k)] := Chain(k[JointAt(k) + 2..])])
    else Map(map[k := Scalar("1")])
  }

  /** `k` as a key beside the chain of its own parts. */
  function Crossed(k: string): Param
    requires HasJoint(k)
  {
    Map(map[k[..JointAt(k)] := Chain(k[JointAt(k) + 2..]), k := Scalar("2")])
  }

  lemma KeyAtJoint(prefix: string, k: string)
    requires HasJoint(k)
    ensures FieldKey(FieldKey(prefix, k[..JointAt(k)]), k[JointAt(k) + 2..]) == FieldKey(prefix, k)
  {
    var i := JointAt(k);
    assert k == k[..i] + "][" + k[i + 2..];
  }

  lemma FirstPartIsJointFree(k: string)
    requires HasJoint(k)
    ensures !HasJoint(k[..JointAt(k)])
  {
    var part := k[..JointAt(k)];
    assert IsJoint(part, JointAt(part)) ==> IsJoint(k, JointAt(part));
  }

  lemma {:induction false} ChainIsJointFree(k: string, others: set<string>)
    ensures JointFree(Chain(k), others)
    decreases |k|
  {
    if HasJoint(k) {
      FirstPartIsJointFree(k);
      ChainIsJointFree(k[JointAt(k) + 2..], others);
    }
  }

  /** The chain is emitted under the very key that `k` itself would have. */
  lemma {:induction false} ChainEmits(k: string, prefix: string, deep: bool)
    ensures Emits(Chain(k), prefix, deep, [Emission(FieldKey(prefix, k), "1")])
    decreases |k|
  {
    hide JointAt, FieldKey, Emits;
    var out := [Emission(FieldKey(prefix, k), "1")];
    if HasJoint(k) {
      var first := k[..JointAt(k)];
      KeyAtJoint(prefix, k);
      ChainEmits(k[JointAt(k) + 2..], FieldKey(prefix, first), deep);
      OneField(Chain(k), first, prefix, deep, out);
    } else {
      ScalarEmits("1", FieldKey(prefix, k), deep);
      OneField(Chain(k), k, prefix, deep, out);
    }
  }

  lemma ScalarEmits(text: string, prefix: string, deep: bool)
    ensures Emits(Scalar(text), prefix, deep, [Emission(prefix, text)])
  {
  }

  /** Two values for one key show the order they came in, in every kind of sink. */
  lemma OrderShows(sink: Sink, csv: bool, key: string)
    ensures AssignAll(sink, csv, [Emission(key, "1"), Emission(key, "2")])
         != AssignAll(sink, csv, [Emission(key, "2"), Emission(key, "1")])
  {
    var x, y := Emission(key, "1"), Emission(key, "2");
    AssignAllSlot(sink, csv, [x, y], key);
    AssignAllSlot(sink, csv, [y, x], key);
    SelectTwo(x, y);
    SelectTwo(y, x);
    SlotShowsOrder(sink.Headers?, csv, Slot(sink, key));
  }

  lemma SelectTwo(x: Emission, y: Emission)
    requires x.key == y.key
    ensures Select([x, y], x.key) == [x.value, y.value]
  {
    assert [x, y][..1] == [x] && [x][..0] == [];
    assert Select([x], x.key) == [x.value];
  }

  lemma AddTwoToSlot(headers: bool, csv: bool, slot: Option<seq<string>>, a: string, b: string)
    ensures AddAllToSlot(headers, csv, slot, [a, b]) == AddToSlot(headers, csv, AddToSlot(headers, csv, slot, a), b)
  {
    hide AddToSlot;
    assert [a, b][..1] == [a] && [a][..0] == [];
    assert AddAllToSlot(headers, csv, slot, [a]) == AddToSlot(headers, csv, slot, a);
  }

  lemma SlotShowsOrder(headers: bool, csv: bool, slot: Option<seq<string>>)
    ensures AddAllToSlot(headers, csv, slot, ["1", "2"]) != AddAllToSlot(headers, csv, slot, ["2", "1"])
  {
    AddTwoToSlot(headers, csv, slot, "1", "2");
    AddTwoToSlot(headers, csv, slot, "2", "1");
    var x, y := AddAllToSlot(headers, csv, slot, ["1", "2"]), AddAllToSlot(headers, csv, slot, ["2", "1"]);
    var p, q := x.value[|x.value| - 1], y.value[|y.value| - 1];
    assert p[|p| - 1] == '2' && q[|q| - 1] == '1';
  }

  lemma OneField(v: Param, k: string, prefix: string, deep: bool, out: seq<Emission>)
    requires v.Map? && v.fields.Keys == {k} && Emits(v.fields[k], FieldKey(prefix, k), deep, out)
    ensures Emits(v, prefix, deep, out)
  {
    hide FieldKey;
    assert EmitsFields(v, [], prefix, deep, out[..0]);
    assert out[0..] == out && [k][..0] == [];
    assert EmitsFields(v, [k], prefix, deep, out);
    assert IsOrder([k], v.fields.Keys);
  }

  lemma TwoFields(v: Param, j: string, k: string, prefix: string, deep: bool, a: seq<Emission>, b: seq<Emission>)
    requires v.Map? && j != k && v.fields.Keys == {j, k}
    requires Emits(v.fields[j], FieldKey(prefix, j), deep, a) && Emits(v.fields[k], FieldKey(prefix, k), deep, b)
    ensures Emits(v, prefix, deep, a + b)
  {
    hide FieldKey;
    assert EmitsFields(v, [], prefix, deep, a[..0]);
    assert a[0..] == a && [j][..0] == [];
    assert EmitsFields(v, [j], prefix, deep, a);
    assert (a + b)[..|a|] == a && (a + b)[|a|..] == b && [j, k][..1] == [j];
    assert EmitsFields(v, [j, k], prefix, deep, a + b);
    assert IsOrder([j, k], v.fields.Keys);
  }

  lemma CrossedFields(k: string) returns (first: string)
    requires HasJoint(k)
    ensures first == k[..JointAt(k)] && first != k && Crossed(k).Map? && Crossed(k).fields.Keys == {first, k}
    ensures Crossed(k).fields[first] == Chain(k[JointAt(k) + 2..]) && Crossed(k).fields[k] == Scalar("2")
  {
    first := k[..JointAt(k)];
    assert |first| < |k|;
  }

  /** Every name with a joint breaks confluence: beside the chain of its parts it is emitted
      under the same key, and from any sink, in any mode, two orders leave different sinks. */
  lemma JointsBreakConfluence(k: string, prefix: string, deep: bool, csv: bool, sink: Sink)
    requires HasJoint(k)
    ensures exists a, b :: Emits(Crossed(k), prefix, deep, a) && Emits(Crossed(k), prefix, deep, b)
                        && AssignAll(sink, csv, a) != AssignAll(sink, csv, b)
  {
    hide JointAt, HasJoint, FieldKey, Emits, AssignAll, Crossed, Chain;
    var key := FieldKey(prefix, k);
    var x, y := Emission(key, "1"), Emission(key, "2");
    var first := CrossedFields(k);
    KeyAtJoint(prefix, k);
    ChainEmits(k[JointAt(k) + 2..], FieldKey(prefix, first), deep);
    ScalarEmits("2", key, deep);
    TwoFields(Crossed(k), first, k, prefix, deep, [x], [y]);
    TwoFields(Crossed(k), k, first, prefix, deep, [y], [x]);
    assert [x] + [y] == [x, y] && [y] + [x] == [y, x];
    OrderShows(sink, csv, key);
  }

  /** The boundary: all values whose keys are joint-free or among `names` are confluent if and
      only if none of `names` has a joint. */
  lemma ConfluentExactlyWithoutJoints(names: set<string>)
    ensures (forall v :: JointFree(v, names) ==> Confluent(v)) <==> forall k :: k in names ==> !HasJoint(k)
  {
    hide HasJoint, Crossed, Emits, AssignAll;
    if forall k :: k in names ==> !HasJoint(k) {
      forall v | JointFree(v, names) ensures Confluent(v) {
        JointFreeAnyway(v, names);
        JointFreeIsConfluent(v);
      }
    } else {
      var k :| k in names && HasJoint(k);
      CrossedIsJointFree(k, names);
      JointsBreakConfluence(k, "", false, false, Values(map[]));
      assert !Confluent(Crossed(k));
    }
  }

  lemma JointFreeIsConfluent(v: Param)
    requires JointFree(v, {})
    ensures Confluent(v)
  {
    hide JointFree, Emits, AssignAll;
    forall prefix, deep, csv, sink, a, b | Emits(v, prefix, deep, a) && Emits(v, prefix, deep, b)
      ensures AssignAll(sink, csv, a) == AssignAll(sink, csv, b)
    {
      FlatteningIsConfluent(v, prefix, deep, csv, sink, a, b);
    }
  }

  lemma {:induction false} JointFreeAnyway(v: Param, names: set<string>)
    requires JointFree(v, names) && forall k :: k in names ==> !HasJoint(k)
    ensures JointFree(v, {})
  {
    match v
    case List(items) =>
      forall i | 0 <= i < |items| ensures JointFree(items[i], {}) {
        JointFreeAnyway(items[i], names);
      }
    case Map(fields) =>
      forall k | k in fields ensures JointFree(fields[k], {}) {
        JointFreeAnyway(fields[k], names);
      }
    case _ =>
  }

  lemma CrossedIsJointFree(k: string, names: set<string>)
    requires HasJoint(k) && k in names
    ensures JointFree(Crossed(k), names)
  {
    FirstPartIsJointFree(k);
    ChainIsJointFree(k[JointAt(k) + 2..], names);
    var first := CrossedFields(k);
  }
}
