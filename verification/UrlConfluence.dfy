/** Exactly which URLs, and which values, make a server URL independent of the visiting order. */
module UrlConfluence {
  import opened Options
  import opened Sequences
  import opened ServerUrls

  // ----- Names longer than a given text

  function Long(n: nat): (s: string)
    ensures |s| == n && BraceFree(s) && forall c :: c in s ==> c == 'x'
  {
    if n == 0 then "" else "x" + Long(n - 1)
  }

  /** A server whose variables have the given defaults and no enum. */
  function ServerOf(url: string, values: map<string, string>): ServerConfiguration {
    ServerConfiguration(url, map name | name in values :: ServerVariable(values[name], []))
  }

  lemma ServerOfValues(url: string, values: map<string, string>)
    ensures ValuesOf(ServerOf(url, values), map[]) == values && ServerOf(url, values).variables.Keys == values.Keys
  {
  }

  /** Two texts of different length from two orders. */
  lemma TwoOrdersBreak(url: string, values: map<string, string>, a: seq<string>, b: seq<string>)
    requires IsOrder(a, values.Keys) && IsOrder(b, values.Keys)
    requires (forall name :: name in a ==> name in values) && forall name :: name in b ==> name in values
    requires ReplaceInOrder(url, a, values) != ReplaceInOrder(url, b, values)
    ensures !Confluent(ServerOf(url, values), map[])
  {
    hide ReplaceInOrder;
    ServerOfValues(url, values);
  }

  /** A placeholder that the URL has not got but the filled URL has: whether its variable is
      visited first or last makes a difference, if its value is empty. */
  lemma LateNameBreaks(url: string, values: map<string, string>, order: seq<string>, name: string, i: nat)
    requires IsOrder(order, values.Keys) && name !in values && forall other :: other in order ==> other in values
    requires ReplaceAll(url, Placeholder(name), "") == url
    requires i <= |ReplaceInOrder(url, order, values)|
    requires OccursAt(Placeholder(name), ReplaceInOrder(url, order, values), i)
    ensures !Confluent(ServerOf(url, values[name := ""]), map[])
  {
    hide ReplaceInOrder, ReplaceAll, Placeholder, Confluent, OccursAt;
    var all := values[name := ""];
    ReplaceInOrderMore(url, order, name, all);
    ReplaceInOrderFirst(url, name, order, all);
    SameValues(url, order, values, all);
    DeletionShrinks(ReplaceInOrder(url, order, values), Placeholder(name), i);
    assert all.Keys == values.Keys + {name};
    assert all.Keys - {name} == values.Keys;
    OneMoreVisited(order, name, all.Keys);
    FirstVisited(order, name, all.Keys);
    TwoOrdersBreak(url, all, order + [name], [name] + order);
  }

  lemma FirstVisited(order: seq<string>, name: string, names: set<string>)
    requires IsOrder(order, names - {name}) && name in names
    ensures IsOrder([name] + order, names)
  {
    var longer := [name] + order;
    assert name !in SetOf(order);
    forall i, j | 0 <= i < j < |longer| ensures Differ(longer, i, j) {
      assert longer[j] == order[j - 1] && order[j - 1] in order;
      assert i > 0 ==> longer[i] == order[i - 1] && Differ(order, i - 1, j - 1);
    }
    assert SetOf(longer) == {name} + SetOf(order);
  }

  // ----- Braces in values

  /** Braces alternate, an opening one first: the URLs made of text and placeholders only. */
  predicate Alternates(s: string, inside: bool) {
    if s == "" then !inside
    else if s[0] == '{' then !inside && Alternates(s[1..], true)
    else if s[0] == '}' then inside && Alternates(s[1..], false)
    else Alternates(s[1..], inside)
  }

  lemma {:induction false} AlternatesNext(s: string)
    requires Alternates(s, true)
    ensures NextBrace(s) < |s| && s[NextBrace(s)] == '}' && Alternates(s[NextBrace(s) + 1..], false)
  {
    if !IsBrace(s[0]) {
      AlternatesNext(s[1..]);
      assert s[1..][NextBrace(s[1..]) + 1..] == s[NextBrace(s) + 1..];
    }
  }

  ghost predicate BraceFreeLiterals(template: seq<Piece>) {
    forall i :: 0 <= i < |template| && template[i].Literal? ==> BraceFree(template[i].text)
  }

  lemma BraceFreeLiteralsMore(p: Piece, rest: seq<Piece>)
    requires BraceFreeLiterals(rest) && (p.Literal? ==> BraceFree(p.text))
    ensures BraceFreeLiterals([p] + rest)
  {
  }

  /** Reading such a URL leaves no brace outside the placeholders. */
  lemma {:induction false} AlternatingIsBraceFree(s: string)
    requires Alternates(s, false)
    ensures BraceFreeLiterals(Read(s))
    decreases |s|
  {
    hide BraceFreeLiterals, HoleName, Placeholder;
    if s == "" {
      NoLiterals();
    } else if s[0] == '{' {
      AlternatesNext(s[1..]);
      var n := NextBrace(s[1..]);
      assert s[n + 1..][0] == '}' && s[n + 2..] == s[1..][n + 1..];
      BehindIs(s);
      AlternatingIsBraceFree(BehindHole(s));
      BraceFreeLiteralsMore(Hole(HoleName(s)), Read(BehindHole(s)));
    } else {
      AlternatingIsBraceFree(s[1..]);
      BraceFreeLiteralsMore(Literal([s[0]]), Read(s[1..]));
    }
  }

  lemma NoLiterals()
    ensures BraceFreeLiterals([])
  {
  }

  lemma BehindIs(s: string)
    requires BeginsWithHole(s)
    ensures BehindHole(s) == s[NextBrace(s[1..]) + 2..]
  {
  }

  /** Without an opening brace, or without a closing one, a template is calm. */
  lemma {:induction false} OneKindIsCalm(template: seq<Piece>, opening: bool)
    requires forall i :: 0 <= i < |template| && template[i].Literal? ==>
               (if opening then '}' else '{') !in template[i].text
    ensures Calm(template, opening)
  {
    if template != [] {
      match template[0]
      case Hole(_) => OneKindIsCalm(template[1..], opening);
      case Literal(text) =>
        OneKindIsCalm(template[1..], opening);
        assert forall i :: 0 <= i < |text| ==> text[i] in text;
    }
  }

  ghost predicate SomeHas(texts: set<string>, c: char) {
    exists u :: u in texts && c in u
  }

  /** An alternating URL and brace-free names; the values are brace-free or among `texts`. */
  ghost predicate Uses(server: ServerConfiguration, supplied: map<string, string>, texts: set<string>) {
    && Alternates(server.url, false)
    && BraceFreeNames(server)
    && forall name :: name in ValuesOf(server, supplied) ==>
         BraceFree(ValuesOf(server, supplied)[name]) || ValuesOf(server, supplied)[name] in texts
  }

  /** All servers with alternating URLs and brace-free names are confluent, whichever of `texts`
      their values are, if and only if not both kinds of brace occur in `texts`. */
  lemma ValuesConfluentExactlyWhen(texts: set<string>)
    ensures (forall server, supplied :: Uses(server, supplied, texts) ==> Confluent(server, supplied))
       <==> !(SomeHas(texts, '{') && SomeHas(texts, '}'))
  {
    hide Confluent, Alternates;
    if SomeHas(texts, '{') && SomeHas(texts, '}') {
      var u :| u in texts && '{' in u;
      var w :| w in texts && '}' in w;
      var server := BothBracesBreak(u, w);
      assert Uses(server, map[], texts);
    } else {
      forall server, supplied | Uses(server, supplied, texts) ensures Confluent(server, supplied) {
        OneBraceIsConfluent(server, supplied, texts);
      }
    }
  }

  lemma OneBraceIsConfluent(server: ServerConfiguration, supplied: map<string, string>, texts: set<string>)
    requires Uses(server, supplied, texts) && !(SomeHas(texts, '{') && SomeHas(texts, '}'))
    ensures Confluent(server, supplied)
  {
    hide Confluent, Alternates, Read;
    var values, opening := ValuesOf(server, supplied), SomeHas(texts, '{');
    var c := if opening then '}' else '{';
    AlternatingIsBraceFree(server.url);
    var filled := FillAll(Read(server.url), values);
    forall i | 0 <= i < |filled| && filled[i].Literal? ensures c !in filled[i].text {
      var p := Read(server.url)[i];
      assert p.Literal? ==> BraceFree(p.text);
      assert BraceFree(filled[i].text) || filled[i].text in texts;
    }
    OneKindIsCalm(filled, opening);
    CalmAnyway(filled, opening);
    CalmServerIsConfluent(server, supplied);
  }

  lemma CalmAnyway(template: seq<Piece>, opening: bool)
    requires Calm(template, opening)
    ensures Calm(template, false)
  {
    LessOpened(template, opening, false);
  }

  /** Between an opening brace and a later closing one lies an innermost pair. */
  lemma {:induction false} InnermostPair(s: string, i: nat, j: nat) returns (k: nat, name: string)
    requires i < j < |s| && s[i] == '{' && s[j] == '}'
    ensures k <= |s| && BraceFree(name) && |name| + 2 <= |s| && OccursAt(Placeholder(name), s, k)
    decreases j - i
  {
    var n := NextBrace(s[i + 1..]);
    if n < j - i - 1 && s[i + 1 + n] == '{' {
      k, name := InnermostPair(s, i + 1 + n, j);
    } else {
      assert n <= j - i - 1 by {
        var behind := s[i + 1..];
        assert behind[j - i - 1] == '}';
        assert forall m :: 0 <= m < n ==> behind[..n][m] == behind[m];
      }
      k, name := i, s[i + 1..][..n];
      assert s[i..] == "{" + name + "}" + s[i + n + 2..];
    }
  }

  lemma BothOccur(u: string, w: string) returns (k: nat, name: string)
    requires '{' in u && '}' in w
    ensures k <= |u + w| && BraceFree(name) && |name| + 2 <= |u + w| && OccursAt(Placeholder(name), u + w, k)
  {
    var i :| 0 <= i < |u| && u[i] == '{';
    var j :| 0 <= j < |w| && w[j] == '}';
    assert (u + w)[|u| + j] == '}';
    k, name := InnermostPair(u + w, i, |u| + j);
  }

  lemma AlternatesHole(name: string, rest: string)
    requires BraceFree(name) && Alternates(rest, false)
    ensures Alternates(Placeholder(name) + rest, false)
  {
    AlternatesInside(name, rest);
    assert (Placeholder(name) + rest)[1..] == name + ("}" + rest);
  }

  lemma {:induction false} AlternatesInside(name: string, rest: string)
    requires BraceFree(name) && Alternates(rest, false)
    ensures Alternates(name + ("}" + rest), true)
  {
    var all := name + ("}" + rest);
    if name == "" {
      assert all[0] == '}' && all[1..] == rest;
    } else {
      assert all[0] == name[0] && all[1..] == name[1..] + ("}" + rest);
      AlternatesInside(name[1..], rest);
    }
  }

  /** A value too short to hold the placeholder does not begin one either. */
  lemma ShortValueHasNone(u: string, b: string)
    requires BraceFree(b) && |u| < |b|
    ensures NoneIn(u, Placeholder(b), Placeholder(b))
  {
    var p, all := Placeholder(b), u + Placeholder(b);
    forall i | 0 <= i < |u| ensures !OccursAt(p, all, i) {
      assert all[i..][|u| - i] == '{';
      assert p[|u| - i] == b[|u| - i - 1];
    }
  }

  /** Two long placeholders side by side become the two values side by side. */
  lemma PairFilled(a: string, b: string, u: string, w: string)
    requires BraceFree(a) && BraceFree(b) && a != b && |u| < |b|
    ensures ReplaceAll(ReplaceAll(Placeholder(a) + Placeholder(b), Placeholder(a), u), Placeholder(b), w) == u + w
  {
    hide Placeholder, ReplaceAll, BraceFree, NoneIn;
    var q := Placeholder(b);
    ReplaceHole(a, q, u);
    OneHole(b, a, u);
    ReplaceSelf(b, w);
    ShortValueHasNone(u, b);
    ReplaceSkips(u, q, q, w);
  }

  lemma ReplaceSelf(b: string, w: string)
    ensures ReplaceAll(Placeholder(b), Placeholder(b), w) == w
  {
    ReplaceHole(b, "", w);
    FillNothing(b, w);
    assert Placeholder(b) + "" == Placeholder(b) && w + "" == w;
  }

  lemma OneHole(b: string, name: string, value: string)
    requires BraceFree(b) && BraceFree(name) && b != name
    ensures ReplaceAll(Placeholder(b), Placeholder(name), value) == Placeholder(b)
  {
    hide Placeholder, ReplaceAll, BraceFree, NoneIn;
    NoneInOtherHole(b, "", name);
    ReplaceSkips(Placeholder(b), "", Placeholder(name), value);
    FillNothing(name, value);
    assert Placeholder(b) + "" == Placeholder(b);
  }

  lemma PairKept(a: string, b: string, name: string)
    requires BraceFree(a) && BraceFree(b) && BraceFree(name) && name != a && name != b
    ensures ReplaceAll(Placeholder(a) + Placeholder(b), Placeholder(name), "") == Placeholder(a) + Placeholder(b)
  {
    hide Placeholder, ReplaceAll, BraceFree, NoneIn;
    NoneInOtherHole(a, Placeholder(b), name);
    ReplaceSkips(Placeholder(a), Placeholder(b), Placeholder(name), "");
    OneHole(b, name, "");
  }

  lemma PairInOrder(url: string, a: string, b: string, values: map<string, string>)
    requires a in values && b in values && a != b
    ensures ReplaceInOrder(url, [a, b], values)
         == ReplaceAll(ReplaceAll(url, Placeholder(a), values[a]), Placeholder(b), values[b])
    ensures IsOrder([a, b], {a, b})
  {
    assert [a, b][..1] == [a] && [a][..0] == [];
    NothingReplaced(url, values);
    assert ReplaceInOrder(url, [a], values) == ReplaceAll(url, Placeholder(a), values[a]);
    assert SetOf([a, b]) == {a, b};
  }

  /** Any value with an opening brace and any value with a closing one break confluence in
      some server with an alternating URL and brace-free names. */
  lemma BothBracesBreak(u: string, w: string) returns (server: ServerConfiguration)
    requires '{' in u && '}' in w
    ensures !Confluent(server, map[]) && Uses(server, map[], {u, w})
  {
    hide Confluent, Placeholder, ReplaceAll, ReplaceInOrder, OccursAt, Alternates;
    var k, name := BothOccur(u, w);
    var a, b := Long(|u + w| + 1), Long(|u + w| + 2);
    var url, values := Placeholder(a) + Placeholder(b), map[a := u, b := w];
    PairFilled(a, b, u, w);
    PairKept(a, b, name);
    PairInOrder(url, a, b, values);
    LateNameBreaks(url, values, [a, b], name, k);
    server := ServerOf(url, values[name := ""]);
    ServerOfValues(url, values[name := ""]);
    AlternatesEmpty();
    AlternatesHole(b, "");
    assert Placeholder(b) + "" == Placeholder(b);
    AlternatesHole(a, Placeholder(b));
  }

  lemma AlternatesEmpty()
    ensures Alternates("", false)
  {
  }

  // ----- Braces in the URL

  /** Every literal is one character. */
  ghost predicate Letters(template: seq<Piece>) {
    forall i :: 0 <= i < |template| && template[i].Literal? ==> |template[i].text| == 1
  }

  lemma LettersMore(p: Piece, rest: seq<Piece>)
    requires Letters(rest) && (p.Literal? ==> |p.text| == 1)
    ensures Letters([p] + rest)
  {
  }

  /** The next brace outside the holes is a closing one, with no hole before it. */
  predicate ClosesBare(template: seq<Piece>) {
    template != [] && template[0].Literal?
    && (template[0].text == "}" || (BraceFree(template[0].text) && ClosesBare(template[1..])))
  }

  /** No pair of literal braces encloses literals only: it would be a hole. */
  predicate Reduced(template: seq<Piece>) {
    template == [] || ((template[0] == Literal("{") ==> !ClosesBare(template[1..])) && Reduced(template[1..]))
  }

  lemma ReducedMore(p: Piece, rest: seq<Piece>)
    requires Reduced(rest) && (p == Literal("{") ==> !ClosesBare(rest))
    ensures Reduced([p] + rest)
  {
    assert ([p] + rest)[1..] == rest;
  }

  lemma ReadNext(s: string)
    requires s != ""
    ensures Read(s) != []
    ensures if BeginsWithHole(s) then Read(s)[0] == Hole(HoleName(s)) && Read(s)[1..] == Read(BehindHole(s))
            else Read(s)[0] == Literal([s[0]]) && Read(s)[1..] == Read(s[1..])
  {
  }

  lemma {:induction false} ClosesBareIsNextBrace(s: string)
    requires ClosesBare(Read(s))
    ensures NextBrace(s) < |s| && s[NextBrace(s)] == '}'
  {
    hide Read, BeginsWithHole, HoleName, BehindHole;
    if s == "" {
      ReadEmpty();
    } else {
      ReadNext(s);
      if !BeginsWithHole(s) && s[0] != '}' {
        assert !IsBrace([s[0]][0]);
        ClosesBareIsNextBrace(s[1..]);
      }
    }
  }

  lemma ReadEmpty()
    ensures Read("") == [] && Letters([]) && Reduced([])
  {
  }

  lemma BeginsWithHoleWhen(s: string)
    requires s != "" && s[0] == '{'
    ensures BeginsWithHole(s) <==> NextBrace(s[1..]) < |s[1..]| && s[1..][NextBrace(s[1..])] == '}'
  {
    var n := NextBrace(s[1..]);
    assert n < |s[1..]| ==> s[n + 1..][0] == s[1..][n];
  }

  lemma {:induction false} ReadIsReduced(s: string)
    ensures Letters(Read(s)) && Reduced(Read(s))
    decreases |s|
  {
    hide Reduced, Letters, ClosesBare, HoleName, BehindHole;
    if s == "" {
      ReadEmpty();
    } else if BeginsWithHole(s) {
      BehindIs(s);
      ReadIsReduced(BehindHole(s));
      LettersMore(Hole(HoleName(s)), Read(BehindHole(s)));
      ReducedMore(Hole(HoleName(s)), Read(BehindHole(s)));
    } else {
      ReadIsReduced(s[1..]);
      LettersMore(Literal([s[0]]), Read(s[1..]));
      if s[0] == '{' {
        BeginsWithHoleWhen(s);
        if ClosesBare(Read(s[1..])) {
          ClosesBareIsNextBrace(s[1..]);
        }
      }
      ReducedMore(Literal([s[0]]), Read(s[1..]));
    }
  }

  lemma PrefixOfTail(a: string, b: string)
    ensures a != "" && a <= b ==> b != "" && a[1..] <= b[1..]
  {
  }

  lemma LongerThanName(name: string, value: string, tail: string)
    requires BraceFree(value) && |name| < |value|
    ensures !(name + "}" <= value + tail)
  {
    assert (value + tail)[|name|] == value[|name|] != '}';
    assert (name + "}")[|name|] == '}';
  }

  function HoleNames(template: seq<Piece>): set<string> {
    set i | 0 <= i < |template| && template[i].Hole? :: template[i].name
  }

  function AllThe(names: set<string>, value: string): map<string, string> {
    map name | name in names :: value
  }

  /** Filled with long values, a reduced template does not show a short name after a brace. */
  lemma {:induction false} LongValuesHide(name: string, template: seq<Piece>, values: map<string, string>,
                                          value: string)
    requires Letters(template) && !ClosesBare(template) && BraceFree(name) && BraceFree(value) && |name| < |value|
    requires forall n :: n in values ==> values[n] == value
    ensures !(name + "}" <= Text(FillAll(template, values)))
    decreases |template|
  {
    if template == [] {
      NothingToFill(values);
    } else {
      hide Letters, FillAll, Text;
      var p, rest, all := template[0], template[1..], Text(FillAll(template, values));
      assert template == [p] + rest;
      FillAllMore(p, rest, values);
      TextMore(FillPiece(p, values), FillAll(rest, values));
      LettersTail(template);
      var tail := Text(FillAll(rest, values));
      if p.Hole? {
        if p.name in values {
          LongerThanName(name, value, tail);
        } else {
          assert all[0] == '{' != (name + "}")[0];
        }
      } else if IsBrace(p.text[0]) {
        assert p.text == [p.text[0]];
        assert all[0] == '{' != (name + "}")[0];
      } else {
        assert all[0] == p.text[0] && all[1..] == tail;
        assert BraceFree(p.text);
        if name != "" {
          LongValuesHide(name[1..], rest, values, value);
          PrefixOfTail(name + "}", all);
          assert (name + "}")[1..] == name[1..] + "}";
        }
      }
    }
  }

  lemma LettersTail(template: seq<Piece>)
    requires Letters(template) && template != []
    ensures Letters(template[1..]) && (template[0].Literal? ==> |template[0].text| == 1)
  {
    assert forall i :: 0 <= i < |template[1..]| ==> template[1..][i] == template[i + 1];
  }

  lemma LongIsUndisturbedHere(c: string, rest: string, name: string)
    requires |c| == 1 && (c == "{" ==> !(name + "}" <= rest))
    ensures NoneIn(c, rest, Placeholder(name))
  {
    var all := c + rest;
    assert all[0..] == all && all[1..] == rest;
    assert Placeholder(name)[0] == '{' && Placeholder(name)[1..] == name + "}";
    PrefixOfTail(Placeholder(name), all);
    assert all[0] == c[0] && (c[0] == '{' ==> c == "{");
  }

  lemma LongValueHasNone(value: string, rest: string, name: string)
    requires BraceFree(value)
    ensures NoneIn(value, rest, Placeholder(name))
  {
    forall i | 0 <= i < |value| ensures !OccursAt(Placeholder(name), value + rest, i) {
      assert (value + rest)[i..][0] == value[i];
    }
  }

  lemma {:induction false} LongIsUndisturbed(template: seq<Piece>, values: map<string, string>, value: string,
                                             name: string)
    requires Letters(template) && Reduced(template) && BraceFree(name) && BraceFree(value) && |name| < |value|
    requires forall n :: n in values ==> values[n] == value
    ensures Undisturbed(FillAll(template, values), name)
  {
    if template == [] {
      NothingToFill(values);
    } else {
      hide Letters, FillAll, Text, NoneIn, BraceFree;
      var p, rest := template[0], template[1..];
      assert template == [p] + rest;
      FillAllMore(p, rest, values);
      FilledTail(FillPiece(p, values), FillAll(rest, values));
      LettersTail(template);
      LongIsUndisturbed(rest, values, value, name);
      if p.Hole? {
        LongValueHasNone(value, Text(FillAll(rest, values)), name);
      } else {
        if p.text == "{" {
          LongValuesHide(name, rest, values, value);
        }
        LongIsUndisturbedHere(p.text, Text(FillAll(rest, values)), name);
      }
    }
  }

  lemma LongIsIndependent(template: seq<Piece>, value: string)
    requires Letters(template) && Reduced(template) && BraceFreeHoles(template) && BraceFree(value)
    requires forall n :: n in HoleNames(template) ==> |n| < |value|
    ensures Independent(template, AllThe(HoleNames(template), value))
  {
    hide Letters, Reduced, FillAll, Undisturbed, BraceFree;
    var values := AllThe(HoleNames(template), value);
    forall name | name in values ensures BraceFree(name) {
      var i :| 0 <= i < |template| && template[i] == Hole(name);
    }
    forall done, name | name in values && name !in done
      ensures Undisturbed(FillAll(template, Restrict(values, done)), name)
    {
      LongIsUndisturbed(template, Restrict(values, done), value, name);
    }
  }

  /** The text up to the next literal brace, which there is if the template is not calm. */
  lemma {:induction false} Between(template: seq<Piece>, values: map<string, string>, value: string)
    returns (middle: string, tail: seq<Piece>)
    requires Letters(template) && BraceFree(value) && !Calm(template, true)
    requires forall n :: n in HoleNames(template) ==> n in values && values[n] == value
    ensures BraceFree(middle) && Letters(tail) && |tail| <= |template| && HoleNames(tail) <= HoleNames(template)
    ensures tail != [] && (tail[0] == Literal("}") || (tail[0] == Literal("{") && !Calm(tail, false)))
    ensures Text(FillAll(template, values)) == middle + Text(FillAll(tail, values))
    ensures tail[0] == Literal("}") && !ClosesBare(template) ==> |middle| >= |value|
    ensures Reduced(template) ==> Reduced(tail)
    decreases |template|
  {
    hide Letters, FillAll, Text, HoleNames;
    var p, rest := template[0], template[1..];
    assert template == [p] + rest;
    FillAllMore(p, rest, values);
    TextMore(FillPiece(p, values), FillAll(rest, values));
    LettersTail(template);
    HoleNamesTail(template);
    if p.Hole? {
      middle, tail := Between(rest, values, value);
      middle := value + middle;
    } else if IsBrace(p.text[0]) {
      assert p.text == [p.text[0]];
      middle, tail := "", template;
    } else {
      OneLetterIsQuiet(p.text);
      middle, tail := Between(rest, values, value);
      middle := p.text + middle;
    }
  }

  lemma OneLetterIsQuiet(c: string)
    requires |c| == 1
    ensures !OpensThenCloses(c)
    ensures !IsBrace(c[0]) ==> '{' !in c && '}' !in c && BraceFree(c)
  {
  }

  lemma HoleNamesTail(template: seq<Piece>)
    requires template != []
    ensures HoleNames(template[1..]) <= HoleNames(template)
    ensures template[0].Hole? ==> template[0].name in HoleNames(template)
  {
    forall n | n in HoleNames(template[1..]) ensures n in HoleNames(template) {
      var i :| 0 <= i < |template| - 1 && template[1..][i] == Hole(n);
      assert template[i + 1] == Hole(n);
    }
  }

  /** A literal opening brace with a literal closing one behind it becomes a new placeholder
      when all holes are filled with long values. */
  lemma {:induction false} NewPlaceholder(template: seq<Piece>, values: map<string, string>, value: string)
    returns (name: string, i: nat)
    requires Letters(template) && Reduced(template) && BraceFree(value) && !Calm(template, false)
    requires forall n :: n in HoleNames(template) ==> n in values && values[n] == value
    ensures BraceFree(name) && |name| >= |value|
    ensures i <= |Text(FillAll(template, values))| && OccursAt(Placeholder(name), Text(FillAll(template, values)), i)
    decreases |template|
  {
    hide Letters, FillAll, Text, HoleNames, OpensThenCloses, BraceFree, OccursAt, Placeholder;
    var p, rest := template[0], template[1..];
    assert template == [p] + rest;
    FillAllMore(p, rest, values);
    TextMore(FillPiece(p, values), FillAll(rest, values));
    LettersTail(template);
    HoleNamesTail(template);
    var before := |PieceText(FillPiece(p, values))|;
    if p != Literal("{") {
      if p.Literal? {
        OtherLetter(p.text);
      }
      name, i := NewPlaceholder(rest, values, value);
      OccursBehind(Placeholder(name), PieceText(FillPiece(p, values)), Text(FillAll(rest, values)), i);
      i := before + i;
    } else {
      OneLetterIsQuiet("{");
      var middle, tail := Between(rest, values, value);
      FillAllMore(tail[0], tail[1..], values);
      assert tail == [tail[0]] + tail[1..];
      TextMore(tail[0], FillAll(tail[1..], values));
      if tail[0] == Literal("}") {
        name, i := middle, 0;
        PairAround(middle, Text(FillAll(tail[1..], values)));
      } else {
        name, i := NewPlaceholder(tail, values, value);
        OccursBehind(Placeholder(name), middle, Text(FillAll(tail, values)), i);
        OccursBehind(Placeholder(name), "{", middle + Text(FillAll(tail, values)), |middle| + i);
        i := 1 + |middle| + i;
      }
    }
  }

  lemma OtherLetter(c: string)
    requires |c| == 1 && c != "{"
    ensures !OpensThenCloses(c) && '{' !in c
  {
    assert c == [c[0]];
  }

  lemma OccursBehind(pattern: string, before: string, s: string, i: nat)
    requires i <= |s| && OccursAt(pattern, s, i)
    ensures OccursAt(pattern, before + s, |before| + i)
  {
    assert (before + s)[|before| + i..] == s[i..];
  }

  lemma PairAround(name: string, rest: string)
    ensures OccursAt(Placeholder(name), "{" + (name + ("}" + rest)), 0)
  {
    var all := "{" + (name + ("}" + rest));
    assert all[0..] == all == Placeholder(name) + rest;
  }

  lemma {:induction false} HoleNamesAreShort(template: seq<Piece>, n: string)
    requires n in HoleNames(template)
    ensures |n| <= |Text(template)|
  {
    var p, rest := template[0], template[1..];
    assert template == [p] + rest;
    TextMore(p, rest);
    if p != Hole(n) {
      var i :| 0 <= i < |template| && template[i] == Hole(n);
      assert rest[i - 1] == Hole(n);
      HoleNamesAreShort(rest, n);
    }
  }

  /** A URL with a `}` after a `{` outside its placeholders breaks confluence with brace-free
      names and values. */
  lemma UncalmUrlBreaks(url: string) returns (server: ServerConfiguration)
    requires !Calm(Read(url), false)
    ensures server.url == url && BraceFreeServer(server, map[]) && !Confluent(server, map[])
  {
    hide Confluent, Placeholder, ReplaceAll, ReplaceInOrder, OccursAt, Calm, Read, Letters, Reduced, Text, BraceFree;
    var template, value := Read(url), Long(|url| + 1);
    var names := HoleNames(template);
    var values := AllThe(names, value);
    ReadIsTemplate(url);
    ReadIsReduced(url);
    forall n | n in names ensures |n| < |value| && n in values && BraceFree(n) {
      HoleNamesAreShort(template, n);
    }
    LongIsIndependent(template, value);
    var order := SomeOrder(names);
    assert values.Keys == names;
    WholeOrderIsFillAll(template, values, order);
    var name, i := NewPlaceholder(template, values, value);
    LongPlaceholder(name);
    ReplaceNothing(url, Placeholder(name), "");
    LateNameBreaks(url, values, order, name, i);
    var all := values[name := ""];
    server := ServerOf(url, all);
    ServerOfValues(url, all);
    forall n | n in all ensures BraceFree(all[n]) && BraceFree(n) {
      EmptyIsBraceFree();
    }
  }

  lemma LongPlaceholder(name: string)
    ensures |Placeholder(name)| == |name| + 2
  {
  }

  lemma EmptyIsBraceFree()
    ensures BraceFree("")
  {
  }

  /** The names and values of a server are free of braces. */
  ghost predicate BraceFreeServer(server: ServerConfiguration, supplied: map<string, string>) {
    && BraceFreeNames(server)
    && forall name :: name in ValuesOf(server, supplied) ==> BraceFree(ValuesOf(server, supplied)[name])
  }

  lemma {:induction false} CalmFilled(template: seq<Piece>, values: map<string, string>, after: bool)
    requires Calm(template, after) && forall name :: name in values ==> BraceFree(values[name])
    ensures Calm(FillAll(template, values), after)
  {
    hide FillAll, OpensThenCloses;
    if template == [] {
      NothingToFill(values);
    } else {
      var p, rest := template[0], template[1..];
      assert template == [p] + rest;
      FillAllMore(p, rest, values);
      FilledTail(FillPiece(p, values), FillAll(rest, values));
      if p.Hole? {
        CalmFilled(rest, values, after);
        if p.name in values {
          BraceFreeIsQuiet(values[p.name]);
        }
      } else {
        CalmFilled(rest, values, after || '{' in p.text);
      }
    }
  }

  lemma BraceFreeIsQuiet(s: string)
    requires BraceFree(s)
    ensures !OpensThenCloses(s) && '{' !in s && '}' !in s
  {
  }

  /** All servers with this URL, brace-free names and brace-free values are confluent if and
      only if, outside the URL's innermost pairs of braces, no `}` comes after a `{`, as it does
      where a pair of braces encloses a placeholder. */
  lemma UrlConfluentExactlyWhenCalm(url: string)
    ensures (forall server: ServerConfiguration, supplied ::
               server.url == url && BraceFreeServer(server, supplied) ==> Confluent(server, supplied))
       <==> Calm(Read(url), false)
  {
    hide Confluent, Calm, Read;
    if Calm(Read(url), false) {
      forall server: ServerConfiguration, supplied | server.url == url && BraceFreeServer(server, supplied)
        ensures Confluent(server, supplied)
      {
        CalmFilled(Read(url), ValuesOf(server, supplied), false);
        CalmServerIsConfluent(server, supplied);
      }
    } else {
      var server := UncalmUrlBreaks(url);
      assert server.url == url && BraceFreeServer(server, map[]);
    }
  }

  /** A URL with a placeholder inside a pair of braces, brace-free names and brace-free values:
      one order gives `x`, the other `{b}`. */
  lemma NestedPlaceholderBreaks()
    ensures
      var values := map["a" := "b", "b" := "x"];
      ReplaceInOrder("{{a}}", ["a", "b"], values) == "x" && ReplaceInOrder("{{a}}", ["b", "a"], values) == "{b}"
  {
    var values := map["a" := "b", "b" := "x"];
    var inner := Placeholder("a");
    assert "{{a}}" == "{" + (inner + "}");
    PairInOrder("{{a}}", "a", "b", values);
    PairInOrder("{{a}}", "b", "a", values);
    assert ReplaceAll("{{a}}", Placeholder("b"), "x") == "{{a}}" by {
      NestedKept();
    }
    assert ReplaceAll("{{a}}", Placeholder("a"), "b") == "{b}" by {
      NestedFilled();
    }
    ReplaceSelf("b", "x");
    assert Placeholder("b") == "{b}";
  }

  lemma NestedKept()
    ensures ReplaceAll("{{a}}", Placeholder("b"), "x") == "{{a}}"
  {
    var p := Placeholder("b");
    NoneInOtherHole("a", "}", "b");
    ReplaceSkips(Placeholder("a"), "}", p, "x");
    ReplaceNothing("}", p, "x");
    assert "{{a}}" == "{" + (Placeholder("a") + "}");
    assert "{{a}}"[1..] == Placeholder("a") + "}";
    assert "{{a}}"[1] != p[1];
  }

  lemma NestedFilled()
    ensures ReplaceAll("{{a}}", Placeholder("a"), "b") == "{b}"
  {
    var p := Placeholder("a");
    ReplaceHole("a", "}", "b");
    ReplaceNothing("}", p, "b");
    assert "{{a}}"[1..] == p + "}";
    assert "{{a}}"[1] != p[1];
    assert "{" + ("b" + "}") == "{b}";
  }
}
