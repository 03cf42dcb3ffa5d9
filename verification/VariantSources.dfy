/** Which definitions a reconstructed variant names: those through which its text is obtained. */
module VariantSources {
  import opened DynamicSql

  // ----- the reference: strings obtained through a definition -----

  /** s is obtained from e at a node, at most k definitions deep, and the definition o is used on the way. */
  ghost predicate ResolvesVia(f: Flow, e: Expression, at: Ref, s: string, o: Ref, k: nat)
    decreases k, |e|, 1
  {
    e != [] && exists n | 0 <= n <= |s| ::
      || (AtomResolvesVia(f, e[0], at, s[..n], o, k) && Resolves(f, e[1..], at, s[n..], k))
      || (AtomResolves(f, e[0], at, s[..n], k) && ResolvesVia(f, e[1..], at, s[n..], o, k))
  }

  ghost predicate AtomResolvesVia(f: Flow, a: Atom, at: Ref, s: string, o: Ref, k: nat)
    decreases k, 0, 0
  {
    a.Variable? && k > 0 && exists ref | ref in RefsOf(f, at, a.symbol) ::
      && IsKnown(f.definitions, ref)
      && (|| (ref == o && Resolves(f, f.definitions[ref], ref, s, k - 1))
          || ResolvesVia(f, f.definitions[ref], ref, s, o, k - 1))
  }

  ghost predicate ResolvableVia(f: Flow, e: Expression, at: Ref, s: string, o: Ref) {
    exists k: nat :: ResolvesVia(f, e, at, s, o, k)
  }

  ghost predicate AtomResolvableVia(f: Flow, a: Atom, at: Ref, s: string, o: Ref) {
    exists k: nat :: AtomResolvesVia(f, a, at, s, o, k)
  }

  lemma {:induction false} DeeperVia(f: Flow, e: Expression, at: Ref, s: string, o: Ref, k: nat, m: nat)
    requires ResolvesVia(f, e, at, s, o, k) && k <= m
    ensures ResolvesVia(f, e, at, s, o, m)
    decreases k, |e|, 1
  {
    hide Resolves, AtomResolves, AtomResolvesVia;
    var n :| 0 <= n <= |s|
      && (|| (AtomResolvesVia(f, e[0], at, s[..n], o, k) && Resolves(f, e[1..], at, s[n..], k))
          || (AtomResolves(f, e[0], at, s[..n], k) && ResolvesVia(f, e[1..], at, s[n..], o, k)));
    if AtomResolvesVia(f, e[0], at, s[..n], o, k) && Resolves(f, e[1..], at, s[n..], k) {
      AtomDeeperVia(f, e[0], at, s[..n], o, k, m);
      Deeper(f, e[1..], at, s[n..], k, m);
    } else {
      AtomDeeper(f, e[0], at, s[..n], k, m);
      DeeperVia(f, e[1..], at, s[n..], o, k, m);
    }
  }

  lemma {:induction false} AtomDeeperVia(f: Flow, a: Atom, at: Ref, s: string, o: Ref, k: nat, m: nat)
    requires AtomResolvesVia(f, a, at, s, o, k) && k <= m
    ensures AtomResolvesVia(f, a, at, s, o, m)
    decreases k, 0, 0
  {
    hide Resolves, ResolvesVia;
    var ref :| ref in RefsOf(f, at, a.symbol) && IsKnown(f.definitions, ref)
      && ((ref == o && Resolves(f, f.definitions[ref], ref, s, k - 1)) || ResolvesVia(f, f.definitions[ref], ref, s, o, k - 1));
    if ResolvesVia(f, f.definitions[ref], ref, s, o, k - 1) {
      DeeperVia(f, f.definitions[ref], ref, s, o, k - 1, m - 1);
    } else {
      Deeper(f, f.definitions[ref], ref, s, k - 1, m - 1);
    }
  }

  /** s splits into a string of the first operand and one of the others, o being used for one of the two. */
  ghost predicate SplitsVia(f: Flow, e: Expression, at: Ref, s: string, o: Ref, n: nat)
    requires e != []
  {
    && n <= |s|
    && (|| (AtomResolvableVia(f, e[0], at, s[..n], o) && Resolvable(f, e[1..], at, s[n..]))
        || (AtomResolvable(f, e[0], at, s[..n]) && ResolvableVia(f, e[1..], at, s[n..], o)))
  }

  lemma {:induction false} ViaSplits(f: Flow, e: Expression, at: Ref, s: string, o: Ref)
    requires e != []
    ensures ResolvableVia(f, e, at, s, o) <==> exists n: nat :: SplitsVia(f, e, at, s, o, n)
  {
    hide Resolves, AtomResolves, AtomResolvesVia;
    if ResolvableVia(f, e, at, s, o) {
      var k: nat :| ResolvesVia(f, e, at, s, o, k);
      var n :| 0 <= n <= |s|
        && (|| (AtomResolvesVia(f, e[0], at, s[..n], o, k) && Resolves(f, e[1..], at, s[n..], k))
            || (AtomResolves(f, e[0], at, s[..n], k) && ResolvesVia(f, e[1..], at, s[n..], o, k)));
      assert SplitsVia(f, e, at, s, o, n);
    }
    if n: nat :| SplitsVia(f, e, at, s, o, n) {
      if AtomResolvableVia(f, e[0], at, s[..n], o) && Resolvable(f, e[1..], at, s[n..]) {
        var k: nat :| AtomResolvesVia(f, e[0], at, s[..n], o, k);
        var m: nat :| Resolves(f, e[1..], at, s[n..], m);
        var d := if k < m then m else k;
        AtomDeeperVia(f, e[0], at, s[..n], o, k, d);
        Deeper(f, e[1..], at, s[n..], m, d);
        assert ResolvesVia(f, e, at, s, o, d);
      } else {
        var k: nat :| AtomResolves(f, e[0], at, s[..n], k);
        var m: nat :| ResolvesVia(f, e[1..], at, s[n..], o, m);
        var d := if k < m then m else k;
        AtomDeeper(f, e[0], at, s[..n], k, d);
        DeeperVia(f, e[1..], at, s[n..], o, m, d);
        assert ResolvesVia(f, e, at, s, o, d);
      }
    }
  }

  /** s is obtained from a known one of the given definitions, which is o itself or leads through o. */
  ghost predicate DefinedVia(f: Flow, refs: seq<Ref>, s: string, o: Ref) {
    exists ref | ref in refs :: IsKnown(f.definitions, ref) && DefinitionIsVia(f, ref, s, o)
  }

  ghost predicate DefinitionIsVia(f: Flow, ref: Ref, s: string, o: Ref)
    requires IsKnown(f.definitions, ref)
  {
    (ref == o && Resolvable(f, f.definitions[ref], ref, s)) || ResolvableVia(f, f.definitions[ref], ref, s, o)
  }

  lemma {:induction false} VariableVia(f: Flow, symbol: Symbol, at: Ref, s: string, o: Ref)
    ensures AtomResolvableVia(f, Variable(symbol), at, s, o) <==> DefinedVia(f, RefsOf(f, at, symbol), s, o)
  {
    hide Resolves, ResolvesVia;
    var refs := RefsOf(f, at, symbol);
    if AtomResolvableVia(f, Variable(symbol), at, s, o) {
      var k: nat :| AtomResolvesVia(f, Variable(symbol), at, s, o, k);
      var ref :| ref in refs && IsKnown(f.definitions, ref)
        && ((ref == o && Resolves(f, f.definitions[ref], ref, s, k - 1)) || ResolvesVia(f, f.definitions[ref], ref, s, o, k - 1));
      assert DefinitionIsVia(f, ref, s, o);
    }
    if DefinedVia(f, refs, s, o) {
      var ref :| ref in refs && IsKnown(f.definitions, ref) && DefinitionIsVia(f, ref, s, o);
      var k: nat :|
        (ref == o && Resolves(f, f.definitions[ref], ref, s, k)) || ResolvesVia(f, f.definitions[ref], ref, s, o, k);
      assert k + 1 - 1 == k;
      assert AtomResolvesVia(f, Variable(symbol), at, s, o, k + 1);
    }
  }

  // ----- what values name -----

  /** A clean value with the text s names o. */
  ghost predicate Names(values: seq<Value>, s: string, o: Ref) {
    exists v | v in values :: IsNaming(v, s, o)
  }

  predicate IsNaming(v: Value, s: string, o: Ref) {
    v.text == s && v.placeholders == {} && o in v.sources
  }

  lemma {:induction false} AppendNames(a: seq<Value>, b: seq<Value>, s: string, o: Ref)
    ensures Names(a + b, s, o) <==> Names(a, s, o) || Names(b, s, o)
  {
    hide IsNaming;
    assert forall v :: v in a + b <==> v in a || v in b;
  }

  lemma {:induction false} OneNames(v: Value, s: string, o: Ref)
    ensures Names([v], s, o) <==> IsNaming(v, s, o)
  {
    assert v in [v];
  }

  lemma {:induction false} AddValueNames(values: seq<Value>, v: Value, s: string, o: Ref)
    ensures Names(AddValue(values, v), s, o) <==> Names(values, s, o) || IsNaming(v, s, o)
  {
    hide Names;
    if values == [] {
      OneNames(v, s, o);
      NothingNames(s, o);
    } else {
      var r := AddValue(values, v);
      assert values == [values[0]] + values[1..] && r == [r[0]] + r[1..];
      AppendNames([values[0]], values[1..], s, o);
      AppendNames([r[0]], r[1..], s, o);
      OneNames(values[0], s, o);
      OneNames(r[0], s, o);
      AddValueNames(values[1..], v, s, o);
    }
  }

  lemma {:induction false} NothingNames(s: string, o: Ref)
    ensures !Names([], s, o)
  {
  }

  lemma {:induction false} DedupeNames(values: seq<Value>, s: string, o: Ref)
    ensures Names(Dedupe(values), s, o) <==> Names(values, s, o)
  {
    hide Names;
    if values != [] {
      var n := |values| - 1;
      DedupeNames(values[..n], s, o);
      AddValueNames(Dedupe(values[..n]), values[n], s, o);
      AppendNames(values[..n], [values[n]], s, o);
      OneNames(values[n], s, o);
      assert values == values[..n] + [values[n]];
    }
  }

  lemma {:induction false} SourceNames(values: seq<Value>, ref: Ref, s: string, o: Ref)
    ensures Names(WithSource(values, ref), s, o) <==> Names(values, s, o) || (o == ref && HasText(values, s))
  {
    var r := WithSource(values, ref);
    assert forall i | 0 <= i < |values| :: r[i] in r && values[i] in values && r[i].sources == values[i].sources + {ref};
    if v :| v in values && v.text == s && v.placeholders == {} && (o in v.sources || o == ref) {
      var i :| 0 <= i < |values| && values[i] == v;
      assert IsNaming(r[i], s, o);
    }
    if v :| v in r && IsNaming(v, s, o) {
      var i :| 0 <= i < |values| && r[i] == v;
      assert IsNaming(values[i], s, o) || (o == ref && HasText(values, s));
    }
  }

  /** t is the text of a followed by a text of the right values, and one of the two names o. */
  ghost predicate StartsNaming(a: Value, right: seq<Value>, t: string, o: Ref) {
    && |a.text| <= |t| && t[..|a.text|] == a.text
    && ((o in a.sources && HasText(right, t[|a.text|..])) || Names(right, t[|a.text|..], o))
  }

  lemma {:induction false} JoinEachNames(a: Value, bs: seq<Value>, t: string, o: Ref)
    requires a.placeholders == {} && Clean(bs)
    ensures Names(JoinEach(a, bs), t, o) <==> StartsNaming(a, bs, t, o)
  {
    hide Names, HasText, Clean;
    if bs == [] {
      NothingNames(t, o);
      NothingNamesOrHas(a, t, o);
    } else {
      var b, rest := bs[0], bs[1..];
      assert bs == [b] + rest;
      AppendKeys([b], rest);
      JoinEachNames(a, rest, t, o);
      AppendNames([Join(a, b)], JoinEach(a, rest), t, o);
      OneNames(Join(a, b), t, o);
      JoinNames(a, b, t, o);
      if |a.text| <= |t| {
        AppendNames([b], rest, t[|a.text|..], o);
        HasEither([b], rest, t[|a.text|..]);
      }
    }
  }

  lemma {:induction false} HasEither(a: seq<Value>, b: seq<Value>, s: string)
    ensures HasText(a + b, s) <==> HasText(a, s) || HasText(b, s)
  {
    AppendKeys(a, b);
  }

  lemma {:induction false} NothingNamesOrHas(a: Value, t: string, o: Ref)
    ensures !StartsNaming(a, [], t, o)
  {
  }

  lemma {:induction false} JoinNames(a: Value, b: Value, t: string, o: Ref)
    requires a.placeholders == {} && Clean([b])
    ensures IsNaming(Join(a, b), t, o) <==> StartsNaming(a, [b], t, o)
  {
    assert b in [b];
    if |a.text| <= |t| {
      assert t == t[..|a.text|] + t[|a.text|..];
      OneNames(b, t[|a.text|..], o);
    }
    assert Join(a, b).text[..|a.text|] == a.text && Join(a, b).text[|a.text|..] == b.text;
  }

  /** t is a text of the left values followed by one of the right values, and one of the two names o. */
  ghost predicate ConcatenatesVia(left: seq<Value>, right: seq<Value>, t: string, o: Ref, n: nat) {
    && n <= |t|
    && ((Names(left, t[..n], o) && HasText(right, t[n..])) || (HasText(left, t[..n]) && Names(right, t[n..], o)))
  }

  ghost predicate SomeConcatenationVia(left: seq<Value>, right: seq<Value>, t: string, o: Ref) {
    exists n: nat :: ConcatenatesVia(left, right, t, o, n)
  }

  lemma {:induction false} JoinAllNames(left: seq<Value>, right: seq<Value>, t: string, o: Ref)
    requires Clean(left) && Clean(right)
    ensures Names(JoinAll(left, right), t, o) <==> SomeConcatenationVia(left, right, t, o)
  {
    hide Names, HasText;
    if left == [] {
      NothingConcatenates(right, t, o);
    } else {
      var a, rest := left[0], left[1..];
      assert a in left && left == [a] + rest;
      hide Clean;
      AppendKeys([a], rest);
      JoinEachNames(a, right, t, o);
      JoinAllNames(rest, right, t, o);
      AppendNames(JoinEach(a, right), JoinAll(rest, right), t, o);
      JoinAllNamesStep(a, rest, right, t, o);
    }
  }

  lemma {:induction false} NothingConcatenates(right: seq<Value>, t: string, o: Ref)
    ensures !Names([], t, o) && !SomeConcatenationVia([], right, t, o)
  {
  }

  lemma {:induction false} JoinAllNamesStep(a: Value, rest: seq<Value>, right: seq<Value>, t: string, o: Ref)
    requires a.placeholders == {}
    ensures SomeConcatenationVia([a] + rest, right, t, o) <==>
      StartsNaming(a, right, t, o) || SomeConcatenationVia(rest, right, t, o)
  {
    hide Names, HasText;
    forall n: nat
      ensures ConcatenatesVia([a] + rest, right, t, o, n) <==>
        ConcatenatesVia(rest, right, t, o, n) || (n == |a.text| && StartsNaming(a, right, t, o))
    {
      if n <= |t| {
        HasEither([a], rest, t[..n]);
        AppendNames([a], rest, t[..n], o);
        OneNames(a, t[..n], o);
        OneHas(a, t[..n]);
      }
    }
    hide ConcatenatesVia, StartsNaming;
    if StartsNaming(a, right, t, o) {
      assert ConcatenatesVia([a] + rest, right, t, o, |a.text|);
    }
    if n: nat :| ConcatenatesVia(rest, right, t, o, n) {
      assert ConcatenatesVia([a] + rest, right, t, o, n);
    }
  }

  lemma {:induction false} OneHas(v: Value, s: string)
    requires v.placeholders == {}
    ensures HasText([v], s) <==> v.text == s
  {
    assert v in [v];
  }

  // ----- evaluation -----

  ghost predicate NamesFor(f: Flow, e: Expression, at: Ref, values: seq<Value>) {
    forall s, o :: Names(values, s, o) <==> ResolvableVia(f, e, at, s, o)
  }

  ghost predicate AtomNames(f: Flow, a: Atom, at: Ref, values: seq<Value>) {
    forall s, o :: Names(values, s, o) <==> AtomResolvableVia(f, a, at, s, o)
  }

  ghost predicate AtomsName(f: Flow, e: Expression, at: Ref, alternatives: seq<seq<Value>>) {
    |alternatives| == |e| && forall i | 0 <= i < |e| :: AtomNames(f, e[i], at, alternatives[i])
  }

  lemma {:induction false} ProductNames(f: Flow, e: Expression, at: Ref, alternatives: seq<seq<Value>>)
    requires AtomsExact(f, e, at, alternatives) && AtomsName(f, e, at, alternatives)
    requires forall a | a in alternatives :: Clean(a)
    ensures NamesFor(f, e, at, Product(alternatives))
    decreases e
  {
    hide Names, HasText, Clean, ResolvableVia, Resolvable, AtomResolvableVia, AtomResolvable;
    if e == [] {
      forall s, o ensures Names([Value("", {}, {})], s, o) <==> ResolvableVia(f, e, at, s, o) {
        NoOperandNames(f, at, s, o);
      }
    } else {
      var first, rest := alternatives[0], alternatives[1..];
      assert first in alternatives && alternatives == [first] + rest;
      assert AtomNames(f, e[0], at, first);
      ProductNames(f, e[1..], at, rest);
      ProductIsExact(f, e[1..], at, rest);
      forall s, o ensures Names(Product(alternatives), s, o) <==> ResolvableVia(f, e, at, s, o) {
        JoinAllNames(first, Product(rest), s, o);
        ViaSplits(f, e, at, s, o);
        forall n: nat ensures ConcatenatesVia(first, Product(rest), s, o, n) <==> SplitsVia(f, e, at, s, o, n) {
        }
      }
    }
  }

  lemma {:induction false} NoOperandNames(f: Flow, at: Ref, s: string, o: Ref)
    ensures !Names([Value("", {}, {})], s, o) && !ResolvableVia(f, [], at, s, o)
  {
    OneNames(Value("", {}, {}), s, o);
  }

  lemma {:induction false} ExpressionNames(f: Flow, e: Expression, at: Ref, depth: nat, visited: Visited)
    requires e != []
    ensures var (values, exceeded) := EvalExpression(f, e, at, depth, visited);
      !exceeded && Clean(values) ==> NamesFor(f, e, at, values)
    decreases MAX_EVAL_DEPTH - depth, 2, 0
  {
    hide NamesFor, Clean, Product, Dedupe, EvalAtoms, AtomsExact, AtomsName;
    if depth >= MAX_EVAL_DEPTH {
      PlaceholderIsDirty(f.digest(e));
    } else {
      var (alternatives, exceeded) := EvalAtoms(f, e, at, depth, visited);
      AtomsAreExact(f, e, at, depth, visited);
      AtomsAreNamed(f, e, at, depth, visited);
      ProductIsDirty(alternatives);
      var all := Product(alternatives);
      DedupeIsTransparent(all);
      if !exceeded && |all| <= MAX_VARIANTS && Clean(all) {
        ProductNames(f, e, at, alternatives);
        DedupeNamesFor(f, e, at, all);
      }
    }
  }

  lemma {:induction false} DedupeNamesFor(f: Flow, e: Expression, at: Ref, values: seq<Value>)
    requires NamesFor(f, e, at, values)
    ensures NamesFor(f, e, at, Dedupe(values))
  {
    hide Names, ResolvableVia;
    forall s, o ensures Names(Dedupe(values), s, o) <==> Names(values, s, o) {
      DedupeNames(values, s, o);
    }
  }

  lemma {:induction false} AtomsAreNamed(f: Flow, e: Expression, at: Ref, depth: nat, visited: Visited)
    requires depth < MAX_EVAL_DEPTH
    ensures var (alternatives, exceeded) := EvalAtoms(f, e, at, depth, visited);
      !exceeded && (forall a | a in alternatives :: Clean(a)) ==> AtomsName(f, e, at, alternatives)
    decreases MAX_EVAL_DEPTH - depth, 1, |e|
  {
    hide Clean, AtomNames, EvalAtom;
    if e != [] {
      AtomIsNamed(f, e[0], at, depth, visited);
      AtomsAreNamed(f, e[1..], at, depth, visited);
      var (alternatives, exceeded) := EvalAtoms(f, e, at, depth, visited);
      assert alternatives[0] in alternatives;
      assert forall a | a in alternatives[1..] :: a in alternatives;
    }
  }

  lemma {:induction false} AtomIsNamed(f: Flow, a: Atom, at: Ref, depth: nat, visited: Visited)
    requires depth < MAX_EVAL_DEPTH
    ensures var (values, exceeded) := EvalAtom(f, a, at, depth, visited);
      !exceeded && Clean(values) ==> AtomNames(f, a, at, values)
    decreases MAX_EVAL_DEPTH - depth, 0, 0
  {
    hide EvalDefinitions, Names, Clean, AtomResolvableVia, Dedupe, DefinedVia;
    match a
    case Text(text) =>
      forall s, o ensures !Names([Value(text, {}, {})], s, o) && !AtomResolvableVia(f, a, at, s, o) {
        TextNames(f, text, at, s, o);
      }
    case Opaque(name) => PlaceholderIsDirty(name);
    case Variable(symbol) =>
      PlaceholderIsDirty(symbol);
      var refs := RefsOf(f, at, symbol);
      if refs != [] && (at, symbol) !in visited {
        var inner := visited + {(at, symbol)};
        DefinitionsAreNamed(f, refs, depth + 1, inner);
        var (values, exceeded) := EvalDefinitions(f, refs, depth + 1, inner);
        DedupeIsTransparent(values);
        if values != [] && !exceeded && Clean(values) {
          forall s, o ensures Names(Dedupe(values), s, o) <==> AtomResolvableVia(f, a, at, s, o) {
            DedupeNames(values, s, o);
            VariableVia(f, symbol, at, s, o);
          }
        }
      }
  }

  lemma {:induction false} TextNames(f: Flow, text: string, at: Ref, s: string, o: Ref)
    ensures !Names([Value(text, {}, {})], s, o) && !AtomResolvableVia(f, Text(text), at, s, o)
  {
    OneNames(Value(text, {}, {}), s, o);
  }

  lemma {:induction false} DefinedViaEither(f: Flow, refs: seq<Ref>, s: string, o: Ref)
    requires refs != []
    ensures DefinedVia(f, refs, s, o) <==>
      (IsKnown(f.definitions, refs[0]) && DefinitionIsVia(f, refs[0], s, o)) || DefinedVia(f, refs[1..], s, o)
  {
    hide DefinitionIsVia;
    assert refs == [refs[0]] + refs[1..];
    assert refs[0] in refs;
  }

  lemma {:induction false} DefinitionsAreNamed(f: Flow, refs: seq<Ref>, depth: nat, visited: Visited)
    requires depth <= MAX_EVAL_DEPTH
    ensures var (values, exceeded) := EvalDefinitions(f, refs, depth, visited);
      !exceeded && Clean(values) ==> forall s, o :: Names(values, s, o) <==> DefinedVia(f, refs, s, o)
    decreases MAX_EVAL_DEPTH - depth, 3, |refs|
  {
    hide Names, Clean, DefinedVia, EvalExpression, ResolvableVia, Resolvable, HasText;
    if refs == [] {
      forall s, o ensures !Names([], s, o) && !DefinedVia(f, [], s, o) {
        NothingIsNamed(f, s, o);
      }
    } else {
      var ref := refs[0];
      DefinitionsAreNamed(f, refs[1..], depth, visited);
      var (values, exceeded) := EvalDefinitions(f, refs, depth, visited);
      var (rest, _) := EvalDefinitions(f, refs[1..], depth, visited);
      if ref in f.definitions {
        var (nested, _) := EvalExpression(f, f.definitions[ref], ref, depth, visited);
        SourceIsTransparent(nested, ref);
        AppendKeys(WithSource(nested, ref), rest);
        if f.definitions[ref] != [] {
          ExpressionIsExact(f, f.definitions[ref], ref, depth, visited);
          ExpressionNames(f, f.definitions[ref], ref, depth, visited);
        } else {
          EmptyExpressionIsDropped(f, ref, depth, visited);
        }
      }
      if !exceeded && Clean(values) {
        forall s, o ensures Names(values, s, o) <==> DefinedVia(f, refs, s, o) {
          DefinedViaEither(f, refs, s, o);
          if ref in f.definitions {
            var (nested, _) := EvalExpression(f, f.definitions[ref], ref, depth, visited);
            AppendNames(WithSource(nested, ref), rest, s, o);
            SourceNames(nested, ref, s, o);
            NothingIsNamed(f, s, o);
            NothingHas(s);
          }
        }
      }
    }
  }

  lemma {:induction false} NothingHas(s: string)
    ensures !HasText([], s)
  {
  }

  lemma {:induction false} NothingIsNamed(f: Flow, s: string, o: Ref)
    ensures !Names([], s, o) && !DefinedVia(f, [], s, o)
  {
  }

  // ----- the variants of a site -----

  /** s is obtained at the site through the definition o. */
  ghost predicate ObtainableVia(f: Flow, site: Site, s: string, o: Ref) {
    match site
    case Immediate(at, source) => ResolvableVia(f, source, at, s, o)
    case Prepared(prepares) =>
      exists ref | ref in prepares :: IsKnown(f.definitions, ref) && ResolvableVia(f, f.definitions[ref], ref, s, o)
  }

  /** The same over the PREPARE statements of a site, which are not named themselves. */
  ghost predicate PreparedVia(f: Flow, prepares: seq<Ref>, s: string, o: Ref) {
    ObtainableVia(f, Prepared(prepares), s, o)
  }

  lemma {:induction false} PreparedViaEither(f: Flow, prepares: seq<Ref>, s: string, o: Ref)
    requires prepares != []
    ensures PreparedVia(f, prepares, s, o) <==>
      || (IsKnown(f.definitions, prepares[0]) && ResolvableVia(f, f.definitions[prepares[0]], prepares[0], s, o))
      || PreparedVia(f, prepares[1..], s, o)
  {
    hide ResolvableVia;
    assert prepares == [prepares[0]] + prepares[1..];
    assert prepares[0] in prepares;
  }

  lemma {:induction false} PreparesAreNamed(f: Flow, prepares: seq<Ref>)
    ensures var (values, exceeded) := EvalPrepares(f, prepares);
      !exceeded && Clean(values) ==> forall s, o :: Names(values, s, o) <==> PreparedVia(f, prepares, s, o)
  {
    hide Names, Clean, PreparedVia, EvalExpression, ResolvableVia;
    if prepares == [] {
      forall s, o ensures !Names([], s, o) && !PreparedVia(f, [], s, o) {
        NothingNames(s, o);
        NothingPrepared(f, s, o);
      }
    } else {
      var ref := prepares[0];
      PreparesAreNamed(f, prepares[1..]);
      var (values, exceeded) := EvalPrepares(f, prepares);
      var (rest, _) := EvalPrepares(f, prepares[1..]);
      if ref in f.definitions {
        var (nested, _) := EvalExpression(f, f.definitions[ref], ref, 0, {});
        AppendKeys(nested, rest);
        if f.definitions[ref] != [] {
          ExpressionNames(f, f.definitions[ref], ref, 0, {});
        } else {
          EmptyExpressionIsDropped(f, ref, 0, {});
        }
      }
      if !exceeded && Clean(values) {
        forall s, o ensures Names(values, s, o) <==> PreparedVia(f, prepares, s, o) {
          PreparedViaEither(f, prepares, s, o);
          if ref in f.definitions {
            AppendNames(EvalExpression(f, f.definitions[ref], ref, 0, {}).0, rest, s, o);
            NothingNames(s, o);
          }
        }
      }
    }
  }

  lemma {:induction false} NothingPrepared(f: Flow, s: string, o: Ref)
    ensures !PreparedVia(f, [], s, o)
  {
  }

  lemma {:induction false} SiteIsNamed(f: Flow, site: Site, s: string, o: Ref)
    requires IsDone(ValuesForExecute(f, site))
    ensures Names(ValuesForExecute(f, site).0, s, o) <==> ObtainableVia(f, site, s, o)
  {
    hide Names, ResolvableVia, Clean, EvalExpression;
    match site
    case Immediate(at, source) =>
      if source == [] {
        NothingEvaluates(f, at);
        assert false;
      }
      ExpressionNames(f, source, at, 0, {});
    case Prepared(prepares) =>
      PreparesAreNamed(f, prepares);
      DedupeIsTransparent(EvalPrepares(f, prepares).0);
      DedupeNames(EvalPrepares(f, prepares).0, s, o);
      assert PreparedVia(f, prepares, s, o) <==> ObtainableVia(f, site, s, o);
  }

  lemma {:induction false} NothingEvaluates(f: Flow, at: Ref)
    ensures EvalExpression(f, [], at, 0, {}).0 == []
  {
  }

  lemma {:induction false} SiteKeepsApart(f: Flow, site: Site)
    ensures NoTwoAlike(ValuesForExecute(f, site).0)
  {
    hide NoTwoAlike, EvalAtoms, Product, Dedupe;
    match site
    case Immediate(at, source) =>
      if source == [] {
        NothingAlike();
      } else {
        var (alternatives, _) := EvalAtoms(f, source, at, 0, {});
        var all := Product(alternatives);
        NothingAlike();
        DedupeKeepsApart(all);
        DedupeKeepsApart(all[..if |all| > MAX_VARIANTS then MAX_VARIANTS else 0]);
      }
    case Prepared(prepares) => DedupeKeepsApart(EvalPrepares(f, prepares).0);
  }

  lemma {:induction false} NothingAlike()
    ensures NoTwoAlike([])
  {
  }

  /** A value names exactly the definitions through which its text is obtained. */
  lemma {:induction false} ValueNamesItsDefinitions(f: Flow, site: Site, v: Value, o: Ref)
    requires IsDone(ValuesForExecute(f, site)) && v in ValuesForExecute(f, site).0
    ensures o in v.sources <==> ObtainableVia(f, site, v.text, o)
  {
    hide ValuesForExecute, ObtainableVia;
    var values := ValuesForExecute(f, site).0;
    SiteIsNamed(f, site, v.text, o);
    SiteKeepsApart(f, site);
    if w :| w in values && IsNaming(w, v.text, o) {
      var i :| 0 <= i < |values| && values[i] == v;
      var j :| 0 <= j < |values| && values[j] == w;
      assert SameKey(values[i], values[j]) && SameKey(values[j], values[i]);
    }
  }

  /** x is what the report says of the string s. */
  ghost predicate Reports(f: Flow, site: Site, r: Reader, x: Variant, s: string) {
    && x.text == r.trim(s) && x.kindKnown == r.kindKnown(r.trim(s)) && x.placeholders == {}
    && forall o :: o in x.sources <==> ObtainableVia(f, site, s, o)
  }

  /** When nothing was exceeded and no placeholder remains, the variants are the obtainable strings, trimmed,
      each with exactly the definitions through which it is obtained. */
  lemma {:induction false} VariantsAre(f: Flow, site: Site, r: Reader, x: Variant)
    requires IsDone(ValuesForExecute(f, site))
    ensures x in BuildVariants(r, ValuesForExecute(f, site).0) <==>
      exists s :: Obtainable(f, site, s) && Reports(f, site, r, x, s)
  {
    hide ValuesForExecute, ObtainableVia, Obtainable;
    var values := ValuesForExecute(f, site).0;
    forall v | v in values ensures Obtainable(f, site, v.text) && forall o :: o in v.sources <==> ObtainableVia(f, site, v.text, o) {
      DoneIsObtainable(f, site, v.text);
      CleanTexts(values, v.text);
      forall o ensures o in v.sources <==> ObtainableVia(f, site, v.text, o) {
        ValueNamesItsDefinitions(f, site, v, o);
      }
    }
    if s :| Obtainable(f, site, s) && Reports(f, site, r, x, s) {
      DoneIsObtainable(f, site, s);
      var v :| v in values && v.text == s;
      assert x.sources == v.sources;
      assert x == Variant(r.trim(v.text), v.placeholders, r.kindKnown(r.trim(v.text)), v.sources);
    }
    if v :| v in values && x == Variant(r.trim(v.text), v.placeholders, r.kindKnown(r.trim(v.text)), v.sources) {
      assert Reports(f, site, r, x, v.text);
    }
  }
}
