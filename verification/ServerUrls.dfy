/**
 Server URL templates of the Go client. The variables are substituted one after the other,
 in whatever order Go visits the variable map.
 */
module ServerUrls {
  import opened Options
  import opened Sequences

  // ----- strings.Replace

  /** `strings.Replace(s, pattern, value, -1)`: leftmost occurrences, not overlapping. */
  function ReplaceAll(s: string, pattern: string, value: string): string
    requires pattern != ""
    decreases |s|
  {
    if pattern <= s then value + ReplaceAll(s[|pattern|..], pattern, value)
    else if s == "" then ""
    else [s[0]] + ReplaceAll(s[1..], pattern, value)
  }

  /** `pattern` occurs in `s` at position `i`. */
  predicate OccursAt(pattern: string, s: string, i: nat)
    requires i <= |s|
  {
    pattern <= s[i..]
  }

  /** No occurrence of `pattern` in `prefix + s` begins within `prefix`. */
  ghost predicate NoneIn(prefix: string, s: string, pattern: string) {
    forall i :: 0 <= i < |prefix| ==> !OccursAt(pattern, prefix + s, i)
  }

  lemma {:induction false} ReplaceSkips(prefix: string, s: string, pattern: string, value: string)
    requires pattern != "" && NoneIn(prefix, s, pattern)
    ensures ReplaceAll(prefix + s, pattern, value) == prefix + ReplaceAll(s, pattern, value)
    decreases |prefix|
  {
    var all := prefix + s;
    if prefix == "" {
      assert all == s;
    } else {
      assert all[0..] == all && !OccursAt(pattern, all, 0);
      assert all[0] == prefix[0] && all[1..] == prefix[1..] + s;
      forall i | 0 <= i < |prefix[1..]| ensures !OccursAt(pattern, prefix[1..] + s, i) {
        assert all[1..][i..] == all[i + 1..];
        assert !OccursAt(pattern, all, i + 1);
      }
      ReplaceSkips(prefix[1..], s, pattern, value);
    }
  }

  lemma {:induction false} ReplaceNothing(s: string, pattern: string, value: string)
    requires |s| < |pattern|
    ensures ReplaceAll(s, pattern, value) == s
    decreases |s|
  {
    if s != "" {
      ReplaceNothing(s[1..], pattern, value);
    }
  }

  /** Deleting a pattern shortens every text that the pattern occurs in. */
  lemma {:induction false} DeletionShrinks(s: string, pattern: string, i: nat)
    requires pattern != "" && i <= |s|
    ensures |ReplaceAll(s, pattern, "")| <= |s|
    ensures OccursAt(pattern, s, i) ==> |ReplaceAll(s, pattern, "")| < |s|
    decreases |s|
  {
    if pattern <= s {
      DeletionShrinks(s[|pattern|..], pattern, 0);
    } else if s != "" {
      assert i > 0 ==> s[1..][i - 1..] == s[i..];
      DeletionShrinks(s[1..], pattern, if i > 0 then i - 1 else 0);
    }
  }

  // ----- Templates

  /** A template is text and `{name}` placeholders without braces in the name. */
  datatype Piece = Literal(text: string) | Hole(name: string)

  predicate IsBrace(c: char) {
    c == '{' || c == '}'
  }

  predicate BraceFree(s: string) {
    forall i :: 0 <= i < |s| ==> !IsBrace(s[i])
  }

  ghost predicate BraceFreeHoles(template: seq<Piece>) {
    forall i :: 0 <= i < |template| && template[i].Hole? ==> BraceFree(template[i].name)
  }

  function Placeholder(name: string): (p: string)
    ensures p != ""
  {
    "{" + name + "}"
  }

  function PieceText(p: Piece): string {
    if p.Literal? then p.text else Placeholder(p.name)
  }

  /** The URL string a template is written as. */
  function Text(template: seq<Piece>): string {
    if template == [] then "" else PieceText(template[0]) + Text(template[1..])
  }

  lemma TextMore(p: Piece, rest: seq<Piece>)
    ensures Text([p] + rest) == PieceText(p) + Text(rest)
  {
    assert ([p] + rest)[1..] == rest;
  }

  /** One hole filled in, everywhere. */
  function Fill(template: seq<Piece>, name: string, value: string): seq<Piece> {
    seq(|template|, i requires 0 <= i < |template| =>
      if template[i] == Hole(name) then Literal(value) else template[i])
  }

  function FillPiece(p: Piece, values: map<string, string>): Piece {
    if p.Hole? && p.name in values then Literal(values[p.name]) else p
  }

  /** All holes filled in at once, each with its own value; others stay. */
  function FillAll(template: seq<Piece>, values: map<string, string>): seq<Piece> {
    seq(|template|, i requires 0 <= i < |template| => FillPiece(template[i], values))
  }

  lemma FillAllMore(p: Piece, rest: seq<Piece>, values: map<string, string>)
    ensures FillAll([p] + rest, values) == [FillPiece(p, values)] + FillAll(rest, values)
  {
  }

  // ----- Filling one hole

  /** `{name}` occurs at holes only: no occurrence begins within a literal. */
  ghost predicate Undisturbed(template: seq<Piece>, name: string) {
    template == [] ||
    (var rest := template[1..];
     && (template[0].Literal? ==> NoneIn(template[0].text, Text(rest), Placeholder(name)))
     && Undisturbed(rest, name))
  }

  /** A placeholder is a prefix of another only if they are the same. */
  lemma PlaceholderAt(name: string, other: string, s: string)
    requires BraceFree(name) && BraceFree(other)
    ensures Placeholder(name) <= Placeholder(other) + s <==> name == other
  {
    var p, q := Placeholder(name), Placeholder(other) + s;
    if |name| < |other| {
      assert p[|name| + 1] == '}' && q[|name| + 1] == other[|name|];
    } else if |name| > |other| {
      assert p[|other| + 1] == name[|other|] && q[|other| + 1] == '}';
    } else if p <= q {
      forall i | 0 <= i < |name| ensures name[i] == other[i] {
        assert p[i + 1] == name[i] && q[i + 1] == other[i];
      }
    }
  }

  lemma NoneInOtherHole(other: string, s: string, name: string)
    requires BraceFree(name) && BraceFree(other) && name != other
    ensures NoneIn(Placeholder(other), s, Placeholder(name))
  {
    var all := Placeholder(other) + s;
    PlaceholderAt(name, other, s);
    assert all[0..] == all;
    forall i | 0 < i < |other| + 2 ensures all[i..][0] != '{' {
      assert all[i..][0] == if i <= |other| then other[i - 1] else '}';
    }
  }

  lemma ReplaceHole(name: string, s: string, value: string)
    ensures ReplaceAll(Placeholder(name) + s, Placeholder(name), value)
         == value + ReplaceAll(s, Placeholder(name), value)
  {
    var p := Placeholder(name);
    assert p <= p + s && (p + s)[|p|..] == s;
  }

  lemma FillMore(p: Piece, rest: seq<Piece>, name: string, value: string)
    ensures Fill([p] + rest, name, value) == [if p == Hole(name) then Literal(value) else p] + Fill(rest, name, value)
  {
  }

  lemma FillNothing(name: string, value: string)
    ensures Text([]) == "" && Fill([], name, value) == [] && ReplaceAll("", Placeholder(name), value) == ""
  {
  }

  /** Replacing one placeholder in the text is filling one hole of the template. */
  lemma {:induction false} ReplaceIsFill(template: seq<Piece>, name: string, value: string)
    requires BraceFreeHoles(template) && BraceFree(name) && Undisturbed(template, name)
    ensures ReplaceAll(Text(template), Placeholder(name), value) == Text(Fill(template, name, value))
  {
    hide Text, ReplaceAll, BraceFree, Placeholder, NoneIn, Fill;
    if template == [] {
      FillNothing(name, value);
    } else {
      var p, rest := template[0], template[1..];
      assert template == [p] + rest;
      TextMore(p, rest);
      FillMore(p, rest, name, value);
      TextMore(if p == Hole(name) then Literal(value) else p, Fill(rest, name, value));
      ReplaceIsFill(rest, name, value);
      if p == Hole(name) {
        ReplaceHole(name, Text(rest), value);
      } else {
        if p.Hole? {
          NoneInOtherHole(p.name, Text(rest), name);
        }
        ReplaceSkips(PieceText(p), Text(rest), Placeholder(name), value);
      }
    }
  }

  // ----- Filling one hole after the other

  function Restrict(values: map<string, string>, names: set<string>): map<string, string> {
    map name | name in values && name in names :: values[name]
  }

  /** Whatever holes have been filled, a placeholder yet to be filled occurs at holes only. */
  ghost predicate Independent(template: seq<Piece>, values: map<string, string>) {
    && BraceFreeHoles(template)
    && (forall name :: name in values ==> BraceFree(name))
    && forall done, name :: name in values && name !in done ==>
         Undisturbed(FillAll(template, Restrict(values, done)), name)
  }

  /** The placeholders of some variables replaced one after the other. */
  function ReplaceInOrder(url: string, order: seq<string>, values: map<string, string>): string
    requires forall name :: name in order ==> name in values
  {
    if order == [] then url
    else
      var n := |order| - 1;
      ReplaceAll(ReplaceInOrder(url, order[..n], values), Placeholder(order[n]), values[order[n]])
  }

  lemma ReplaceInOrderMore(url: string, order: seq<string>, name: string, values: map<string, string>)
    requires name in values && forall other :: other in order ==> other in values
    ensures forall other :: other in order + [name] ==> other in values
    ensures ReplaceInOrder(url, order + [name], values)
         == ReplaceAll(ReplaceInOrder(url, order, values), Placeholder(name), values[name])
  {
    assert (order + [name])[..|order|] == order;
  }

  lemma {:induction false} ReplaceInOrderFirst(url: string, name: string, order: seq<string>,
                                               values: map<string, string>)
    requires name in values && forall other :: other in order ==> other in values
    ensures forall other :: other in [name] + order ==> other in values
    ensures ReplaceInOrder(url, [name] + order, values)
         == ReplaceInOrder(ReplaceAll(url, Placeholder(name), values[name]), order, values)
  {
    hide ReplaceAll, Placeholder;
    if order == [] {
      assert [name] + order == [name] && [name][..0] == [];
    } else {
      var front := order[..|order| - 1];
      assert ([name] + order)[..|order|] == [name] + front;
      ReplaceInOrderFirst(url, name, front, values);
    }
  }

  lemma {:induction false} SameValues(url: string, order: seq<string>, a: map<string, string>, b: map<string, string>)
    requires forall name :: name in order ==> name in a && name in b && a[name] == b[name]
    ensures ReplaceInOrder(url, order, a) == ReplaceInOrder(url, order, b)
  {
    if order != [] {
      SameValues(url, order[..|order| - 1], a, b);
    }
  }

  lemma NothingReplaced(url: string, values: map<string, string>)
    ensures ReplaceInOrder(url, [], values) == url && IsOrder<string>([], {})
  {
  }

  lemma FillNext(template: seq<Piece>, values: map<string, string>, done: set<string>, name: string)
    requires name in values && name !in done
    ensures Fill(FillAll(template, Restrict(values, done)), name, values[name])
         == FillAll(template, Restrict(values, done + {name}))
  {
  }

  lemma FillNone(template: seq<Piece>, values: map<string, string>)
    ensures FillAll(template, Restrict(values, {})) == template
  {
  }

  lemma FilledHoles(template: seq<Piece>, values: map<string, string>)
    requires BraceFreeHoles(template)
    ensures BraceFreeHoles(FillAll(template, values))
  {
    forall i | 0 <= i < |template| && FillAll(template, values)[i].Hole?
      ensures BraceFree(FillAll(template, values)[i].name)
    {
      assert template[i] == FillAll(template, values)[i];
    }
  }

  /** Replacing one after the other, in any order, is substituting all at once. */
  lemma {:induction false} ReplaceInOrderIsFillAll(template: seq<Piece>, values: map<string, string>,
                                                   order: seq<string>)
    requires Independent(template, values)
    requires NoDuplicates(order) && forall name :: name in order ==> name in values
    ensures ReplaceInOrder(Text(template), order, values) == Text(FillAll(template, Restrict(values, SetOf(order))))
  {
    hide Text, ReplaceAll, Placeholder, BraceFree, FillAll, Restrict, NoDuplicates, Undisturbed, BraceFreeHoles;
    if order == [] {
      assert SetOf(order) == {};
      FillNone(template, values);
    } else {
      var front, name := order[..|order| - 1], order[|order| - 1];
      NoDuplicatesFront(order);
      ReplaceInOrderIsFillAll(template, values, front);
      FilledHoles(template, Restrict(values, SetOf(front)));
      ReplaceIsFill(FillAll(template, Restrict(values, SetOf(front))), name, values[name]);
      FillNext(template, values, SetOf(front), name);
      assert order == front + [name];
      assert SetOf(order) == SetOf(front) + {name};
    }
  }

  /** The same for an order that visits every variable. */
  lemma WholeOrderIsFillAll(template: seq<Piece>, values: map<string, string>, order: seq<string>)
    requires Independent(template, values) && IsOrder(order, values.Keys)
    ensures forall name :: name in order ==> name in values
    ensures ReplaceInOrder(Text(template), order, values) == Text(FillAll(template, values))
  {
    hide Text, ReplaceInOrder, FillAll, Independent;
    assert forall name :: name in order ==> name in SetOf(order);
    ReplaceInOrderIsFillAll(template, values, order);
    assert Restrict(values, SetOf(order)) == values;
  }

  // ----- Calm templates

  predicate OpensThenCloses(text: string) {
    exists i, j :: 0 <= i < j < |text| && text[i] == '{' && text[j] == '}'
  }

  /** In the text outside the holes no `}` comes after a `{`; `after` says that a `{` has come. */
  predicate Calm(template: seq<Piece>, after: bool) {
    if template == [] then true
    else match template[0]
      case Hole(_) => Calm(template[1..], after)
      case Literal(text) =>
        && (after ==> '}' !in text)
        && !OpensThenCloses(text)
        && Calm(template[1..], after || '{' in text)
  }

  /** After an opening brace no placeholder ends before the next opening one. */
  lemma {:induction false} NoEndAhead(name: string, s: string, rest: seq<Piece>)
    requires BraceFree(name) && '}' !in s && Calm(rest, true)
    ensures !(name + "}" <= s + Text(rest))
    decreases |rest|, |s|
  {
    var all := s + Text(rest);
    if s != "" {
      if name != "" && name + "}" <= all {
        assert all[1..] == s[1..] + Text(rest);
        assert (name + "}")[1..] == name[1..] + "}" <= all[1..];
        NoEndAhead(name[1..], s[1..], rest);
      }
      assert all[0] == s[0] != '}';
    } else if rest != [] {
      assert all == PieceText(rest[0]) + Text(rest[1..]);
      if rest[0].Literal? {
        NoEndAhead(name, rest[0].text, rest[1..]);
      } else {
        assert all[0] == '{' != (name + "}")[0];
      }
    }
  }

  lemma NoPlaceholderInCalm(text: string, rest: seq<Piece>, name: string)
    requires BraceFree(name) && !OpensThenCloses(text) && Calm(rest, '{' in text)
    ensures NoneIn(text, Text(rest), Placeholder(name))
  {
    var all := text + Text(rest);
    forall i | 0 <= i < |text| ensures !OccursAt(Placeholder(name), all, i) {
      if text[i] == '{' {
        var tail := text[i + 1..];
        assert '}' !in tail by {
          assert forall j :: 0 <= j < |tail| ==> tail[j] == text[i + 1 + j];
        }
        NoEndAhead(name, tail, rest);
        assert all[i..][1..] == tail + Text(rest);
        assert Placeholder(name)[1..] == name + "}";
      } else {
        assert all[i..][0] == text[i];
      }
    }
  }

  lemma {:induction false} CalmIsUndisturbed(template: seq<Piece>, after: bool, name: string)
    requires Calm(template, after) && BraceFree(name)
    ensures Undisturbed(template, name)
  {
    hide NoneIn, OpensThenCloses, BraceFree, Text;
    if template != [] {
      match template[0]
      case Hole(_) => CalmIsUndisturbed(template[1..], after, name);
      case Literal(text) =>
        CalmIsUndisturbed(template[1..], after || '{' in text, name);
        LessOpened(template[1..], after || '{' in text, '{' in text);
        NoPlaceholderInCalm(text, template[1..], name);
    }
  }

  lemma {:induction false} LessOpened(template: seq<Piece>, after: bool, less: bool)
    requires Calm(template, after) && (less ==> after)
    ensures Calm(template, less)
  {
    hide OpensThenCloses;
    if template != [] {
      match template[0]
      case Hole(_) => LessOpened(template[1..], after, less);
      case Literal(text) => LessOpened(template[1..], after || '{' in text, less || '{' in text);
    }
  }

  /** If the template is calm with some holes filled, it is calm with fewer filled. */
  lemma {:induction false} CalmBefore(template: seq<Piece>, values: map<string, string>, done: set<string>,
                                      after: bool, less: bool)
    requires Calm(FillAll(template, values), after) && (less ==> after)
    ensures Calm(FillAll(template, Restrict(values, done)), less)
  {
    hide OpensThenCloses, FillAll;
    if template == [] {
      assert FillAll(template, Restrict(values, done)) == [] by {
        FillNone([], values);
        NothingToFill(Restrict(values, done));
      }
    } else {
      var p, rest := template[0], template[1..];
      assert template == [p] + rest;
      FillAllMore(p, rest, values);
      FillAllMore(p, rest, Restrict(values, done));
      var full, part := FillPiece(p, values), FillPiece(p, Restrict(values, done));
      FilledTail(full, FillAll(rest, values));
      FilledTail(part, FillAll(rest, Restrict(values, done)));
      CalmBefore(rest, values, done, after || (full.Literal? && '{' in full.text),
                 less || (part.Literal? && '{' in part.text));
    }
  }

  lemma NothingToFill(values: map<string, string>)
    ensures FillAll([], values) == []
  {
  }

  lemma FilledTail(p: Piece, rest: seq<Piece>)
    ensures ([p] + rest)[0] == p && ([p] + rest)[1..] == rest
  {
  }

  lemma CalmIsIndependent(template: seq<Piece>, values: map<string, string>)
    requires BraceFreeHoles(template) && forall name :: name in values ==> BraceFree(name)
    requires Calm(FillAll(template, values), false)
    ensures Independent(template, values)
  {
    hide Calm, Undisturbed, FillAll, Restrict, BraceFree;
    forall done, name | name in values && name !in done
      ensures Undisturbed(FillAll(template, Restrict(values, done)), name)
    {
      CalmBefore(template, values, done, false, false);
      CalmIsUndisturbed(FillAll(template, Restrict(values, done)), false, name);
    }
  }

  // ----- Reading a URL as a template

  function NextBrace(s: string): (n: nat)
    ensures n <= |s| && BraceFree(s[..n])
    ensures n < |s| ==> IsBrace(s[n])
  {
    if s == "" || IsBrace(s[0]) then 0 else 1 + NextBrace(s[1..])
  }

  /** `s` begins with a pair of braces that encloses no brace. */
  predicate BeginsWithHole(s: string) {
    s != "" && s[0] == '{' && "}" <= s[NextBrace(s[1..]) + 1..]
  }

  /** The name in that pair of braces, and what follows the pair. */
  function HoleName(s: string): (name: string)
    requires s != ""
    ensures BraceFree(name)
  {
    s[1..][..NextBrace(s[1..])]
  }

  function BehindHole(s: string): (rest: string)
    requires BeginsWithHole(s)
    ensures s == Placeholder(HoleName(s)) + rest
  {
    var n := NextBrace(s[1..]);
    assert s[n + 1..][0] == '}' && s[n + 1..] == "}" + s[n + 2..];
    s[n + 2..]
  }

  /** Innermost pairs of braces are placeholders, every other character is a literal. */
  function Read(s: string): seq<Piece>
    decreases |s|
  {
    if s == "" then []
    else if BeginsWithHole(s) then [Hole(HoleName(s))] + Read(BehindHole(s))
    else [Literal([s[0]])] + Read(s[1..])
  }

  lemma BraceFreeHolesMore(p: Piece, rest: seq<Piece>)
    requires BraceFreeHoles(rest) && (p.Hole? ==> BraceFree(p.name))
    ensures BraceFreeHoles([p] + rest)
  {
  }

  /** Every URL is the text of the template read from it. */
  lemma {:induction false} ReadIsTemplate(s: string)
    ensures Text(Read(s)) == s && BraceFreeHoles(Read(s))
    decreases |s|
  {
    hide Text, BraceFree, HoleName, BeginsWithHole, BraceFreeHoles, BehindHole;
    if s == "" {
      FillNothing("", "");
      NoHoles();
    } else if BeginsWithHole(s) {
      ReadIsTemplate(BehindHole(s));
      TextMore(Hole(HoleName(s)), Read(BehindHole(s)));
      BraceFreeHolesMore(Hole(HoleName(s)), Read(BehindHole(s)));
    } else {
      ReadIsTemplate(s[1..]);
      TextMore(Literal([s[0]]), Read(s[1..]));
      BraceFreeHolesMore(Literal([s[0]]), Read(s[1..]));
      assert s == [s[0]] + s[1..];
    }
  }

  lemma NoHoles()
    ensures BraceFreeHoles([])
  {
  }

  // ----- Servers

  datatype ServerVariable = ServerVariable(defaultValue: string, enumValues: seq<string>)

  datatype ServerConfiguration = ServerConfiguration(url: string, variables: map<string, ServerVariable>)

  datatype UrlResult =
    | Url(url: string)
    | OutOfRange(index: int)
    | InvalidValue(name: string, value: string)

  /** A supplied value outside a non-empty enum. */
  predicate IsInvalid(server: ServerConfiguration, supplied: map<string, string>, name: string) {
    && name in server.variables && name in supplied
    && server.variables[name].enumValues != []
    && supplied[name] !in server.variables[name].enumValues
  }

  /** The value of each declared variable: the supplied one, else the default. */
  function ValuesOf(server: ServerConfiguration, supplied: map<string, string>): map<string, string> {
    map name | name in server.variables ::
      if name in supplied then supplied[name] else server.variables[name].defaultValue
  }

  /** The loop over the enum of a variable; an empty enum allows every value. */
  method Allowed(enumValues: seq<string>, value: string) returns (found: bool)
    ensures found <==> enumValues == [] || value in enumValues
  {
    found := |enumValues| == 0;
    for i := 0 to |enumValues|
      invariant found <==> enumValues == [] || value in enumValues[..i]
    {
      if value == enumValues[i] {
        found := true;
      }
    }
    assert enumValues[..|enumValues|] == enumValues;
  }

  /** `ServerConfigurations.URL`: an in-range call fails exactly when some supplied value is
      outside its non-empty enum, and otherwise replaces each declared placeholder once, in
      the order in which the map happened to be visited. */
  method URL(servers: seq<ServerConfiguration>, index: int, supplied: map<string, string>)
    returns (r: UrlResult, ghost order: seq<string>)
    ensures if 0 <= index < |servers| then !r.OutOfRange? else r == OutOfRange(index)
    ensures 0 <= index < |servers| ==>
              (r.Url? <==>
               forall name :: name in servers[index].variables && name in supplied ==>
                 servers[index].variables[name].enumValues == []
                 || supplied[name] in servers[index].variables[name].enumValues)
    ensures r.InvalidValue? ==>
      && r.name in servers[index].variables && r.name in supplied && r.value == supplied[r.name]
      && servers[index].variables[r.name].enumValues != []
      && r.value !in servers[index].variables[r.name].enumValues
    ensures r.Url? ==>
      && IsOrder(order, servers[index].variables.Keys)
      && (forall name :: name in order ==> name in ValuesOf(servers[index], supplied))
      && r.url == ReplaceInOrder(servers[index].url, order, ValuesOf(servers[index], supplied))
    ensures r.Url? && BraceFreeNames(servers[index]) ==>
      forall filled :: FilledFor(servers[index], supplied, filled) && Calm(filled, false) ==> r.url == Text(filled)
  {
    order := [];
    if index < 0 || |servers| <= index {
      return OutOfRange(index), order;
    }
    hide ReplaceAll, Placeholder, ReplaceInOrder, IsOrder, FilledFor, Calm, Text, BraceFreeNames;
    var server := servers[index];
    var url := server.url;
    ghost var values := ValuesOf(server, supplied);
    var rest := server.variables.Keys;
    NothingReplaced(url, values);
    while rest != {}
      invariant rest <= server.variables.Keys && IsOrder(order, server.variables.Keys - rest)
      invariant forall name :: name in order ==> name in values
      invariant forall name :: name in server.variables && name !in rest ==> !IsInvalid(server, supplied, name)
      invariant url == ReplaceInOrder(server.url, order, values)
      decreases rest
    {
      var name :| name in rest;
      rest := rest - {name};
      var variable := server.variables[name];
      ReplaceInOrderMore(server.url, order, name, values);
      if name in supplied {
        var found := Allowed(variable.enumValues, supplied[name]);
        if !found {
          return InvalidValue(name, supplied[name]), order;
        }
        url := ReplaceAll(url, Placeholder(name), supplied[name]);
      } else {
        url := ReplaceAll(url, Placeholder(name), variable.defaultValue);
      }
      assert server.variables.Keys - rest - {name} == server.variables.Keys - (rest + {name});
      OneMoreVisited(order, name, server.variables.Keys - rest);
      order := order + [name];
    }
    assert server.variables.Keys - rest == server.variables.Keys;
    forall filled | BraceFreeNames(server) && FilledFor(server, supplied, filled) && Calm(filled, false)
      ensures url == Text(filled)
    {
      UrlIsFilled(server, supplied, order, filled);
    }
    r := Url(url);
  }

  // ----- What is filled in

  /** Piece by piece: a declared placeholder has become the supplied value, or the default of
      its variable if none was supplied; all else is as it was. */
  ghost predicate FilledFor(server: ServerConfiguration, supplied: map<string, string>, filled: seq<Piece>) {
    && |filled| == |Read(server.url)|
    && forall i :: 0 <= i < |filled| ==>
         var p := Read(server.url)[i];
         filled[i] ==
           if p.Literal? || p.name !in server.variables then p
           else if p.name in supplied then Literal(supplied[p.name])
           else Literal(server.variables[p.name].defaultValue)
  }

  /** Whatever the visiting order, the URL is the template with each declared placeholder filled
      by the supplied value or, without one, the default. */
  lemma UrlIsFilled(server: ServerConfiguration, supplied: map<string, string>, order: seq<string>, filled: seq<Piece>)
    requires BraceFreeNames(server) && IsOrder(order, server.variables.Keys)
    requires FilledFor(server, supplied, filled) && Calm(filled, false)
    ensures forall name :: name in order ==> name in ValuesOf(server, supplied)
    ensures ReplaceInOrder(server.url, order, ValuesOf(server, supplied)) == Text(filled)
  {
    hide Calm, Read, Text, BraceFree, ReplaceInOrder;
    assert filled == FillAll(Read(server.url), ValuesOf(server, supplied));
    SubstitutionIsConfluent(server, supplied, order);
  }

  /** The default of a variable that is supplied has no influence on the URL, in any order, calm
      or not. */
  lemma SuppliedHidesDefault(server: ServerConfiguration, supplied: map<string, string>, name: string,
                             other: ServerVariable, order: seq<string>)
    requires name in server.variables && name in supplied && IsOrder(order, server.variables.Keys)
    ensures
      var changed := server.(variables := server.variables[name := other]);
      && (forall n :: n in order ==> n in ValuesOf(server, supplied) && n in ValuesOf(changed, supplied))
      && ReplaceInOrder(changed.url, order, ValuesOf(changed, supplied))
         == ReplaceInOrder(server.url, order, ValuesOf(server, supplied))
  {
    var changed := server.(variables := server.variables[name := other]);
    assert forall n :: n in order ==> n in SetOf(order);
    assert ValuesOf(changed, supplied) == ValuesOf(server, supplied);
  }

  // ----- Confluence

  ghost predicate BraceFreeNames(server: ServerConfiguration) {
    forall name :: name in server.variables ==> BraceFree(name)
  }

  /** Any two orders of visiting the variables give the same URL. */
  ghost predicate Confluent(server: ServerConfiguration, supplied: map<string, string>) {
    var values := ValuesOf(server, supplied);
    forall a, b :: IsOrder(a, values.Keys) && IsOrder(b, values.Keys)
      && (forall name :: name in a ==> name in values) && (forall name :: name in b ==> name in values)
      ==> ReplaceInOrder(server.url, a, values) == ReplaceInOrder(server.url, b, values)
  }

  /** What a caller can check: substitute all at once, and look whether outside the placeholders
      that are left a `}` comes after a `{`. If not, every order gives that very URL. */
  lemma SubstitutionIsConfluent(server: ServerConfiguration, supplied: map<string, string>, order: seq<string>)
    requires BraceFreeNames(server) && Calm(FillAll(Read(server.url), ValuesOf(server, supplied)), false)
    requires IsOrder(order, server.variables.Keys)
    ensures forall name :: name in order ==> name in ValuesOf(server, supplied)
    ensures ReplaceInOrder(server.url, order, ValuesOf(server, supplied))
         == Text(FillAll(Read(server.url), ValuesOf(server, supplied)))
  {
    hide Text, ReplaceInOrder, FillAll, BraceFree, Read, Calm, Independent;
    var values := ValuesOf(server, supplied);
    ReadIsTemplate(server.url);
    CalmIsIndependent(Read(server.url), values);
    assert values.Keys == server.variables.Keys;
    WholeOrderIsFillAll(Read(server.url), values, order);
  }

  lemma CalmServerIsConfluent(server: ServerConfiguration, supplied: map<string, string>)
    requires BraceFreeNames(server) && Calm(FillAll(Read(server.url), ValuesOf(server, supplied)), false)
    ensures Confluent(server, supplied)
  {
    hide Text, ReplaceInOrder, FillAll, BraceFree, Read, Calm, IsOrder;
    var values := ValuesOf(server, supplied);
    assert values.Keys == server.variables.Keys;
    forall a, b | IsOrder(a, values.Keys) && IsOrder(b, values.Keys)
      && (forall name :: name in a ==> name in values) && (forall name :: name in b ==> name in values)
      ensures ReplaceInOrder(server.url, a, values) == ReplaceInOrder(server.url, b, values)
    {
      SubstitutionIsConfluent(server, supplied, a);
      SubstitutionIsConfluent(server, supplied, b);
    }
  }

  /** After substitution no declared placeholder is left in the URL. */
  lemma {:induction false} NoPlaceholderLeft(template: seq<Piece>, name: string, i: nat)
    requires BraceFreeHoles(template) && BraceFree(name) && Undisturbed(template, name) && Hole(name) !in template
    requires i <= |Text(template)|
    ensures !OccursAt(Placeholder(name), Text(template), i)
  {
    if template != [] {
      hide BraceFree, Undisturbed, Text;
      var p, rest := template[0], template[1..];
      assert template == [p] + rest;
      TextMore(p, rest);
      UndisturbedTail(template, name);
      if i >= |PieceText(p)| {
        assert Text(template)[i..] == Text(rest)[i - |PieceText(p)|..];
        NoPlaceholderLeft(rest, name, i - |PieceText(p)|);
      } else if p.Hole? {
        NoneInOtherHole(p.name, Text(rest), name);
      }
    } else {
      NothingToFill(map[]);
    }
  }

  lemma UndisturbedTail(template: seq<Piece>, name: string)
    requires template != [] && Undisturbed(template, name)
    ensures Undisturbed(template[1..], name)
    ensures template[0].Literal? ==> NoneIn(template[0].text, Text(template[1..]), Placeholder(name))
  {
  }

  lemma DeclaredPlaceholdersGone(server: ServerConfiguration, supplied: map<string, string>, name: string, i: nat)
    requires BraceFreeNames(server) && name in server.variables
    requires Calm(FillAll(Read(server.url), ValuesOf(server, supplied)), false)
    requires i <= |Text(FillAll(Read(server.url), ValuesOf(server, supplied)))|
    ensures !OccursAt(Placeholder(name), Text(FillAll(Read(server.url), ValuesOf(server, supplied))), i)
  {
    hide BraceFree, Calm, Undisturbed, Read, Text;
    var values := ValuesOf(server, supplied);
    ReadIsTemplate(server.url);
    FilledHoles(Read(server.url), values);
    CalmIsUndisturbed(FillAll(Read(server.url), values), false, name);
    NoPlaceholderLeft(FillAll(Read(server.url), values), name, i);
  }
}
