/** Bounded reconstruction of dynamic SQL text through reaching definitions, and its exactness. */
module DynamicSql {
  type Ref = string
  type Symbol = string

  /** One operand of a concatenation.  Opaque is anything that is neither a literal nor a name. */
  datatype Atom = Text(text: string) | Variable(symbol: Symbol) | Opaque(placeholder: string)

  type Expression = seq<Atom>

  /** The analyser's own definition map: for a node and a name, the definitions that reach it in
      the order in which they are visited, and the expression of each definition. */
  datatype Flow = Flow(variables: map<(Ref, Symbol), seq<Ref>>, definitions: map<Ref, Expression>,
                       digest: Expression -> string)

  datatype Value = Value(text: string, placeholders: set<string>, sources: set<Ref>)

  const MAX_VARIANTS: nat := 10
  const MAX_EVAL_DEPTH: nat := 12

  function RefsOf(f: Flow, at: Ref, s: Symbol): seq<Ref> {
    if (at, s) in f.variables then f.variables[(at, s)] else []
  }

  /** The definition has an expression with at least one operand; any other one is dropped. */
  predicate IsKnown(definitions: map<Ref, Expression>, ref: Ref) {
    ref in definitions && definitions[ref] != []
  }

  // ----- the reference: strings obtainable through reaching definitions -----

  /** s is obtained from e at a node by resolving each variable through any of its known reaching
      definitions, at most k definitions deep. */
  ghost predicate Resolves(f: Flow, e: Expression, at: Ref, s: string, k: nat)
    decreases k, |e|, 1
  {
    if e == [] then s == ""
    else exists n | 0 <= n <= |s| ::
      AtomResolves(f, e[0], at, s[..n], k) && Resolves(f, e[1..], at, s[n..], k)
  }

  ghost predicate AtomResolves(f: Flow, a: Atom, at: Ref, s: string, k: nat)
    decreases k, 0, 0
  {
    match a
    case Text(text) => s == text
    case Opaque(_) => false
    case Variable(symbol) =>
      k > 0 && exists ref | ref in RefsOf(f, at, symbol) ::
        IsKnown(f.definitions, ref) && Resolves(f, f.definitions[ref], ref, s, k - 1)
  }

  ghost predicate Resolvable(f: Flow, e: Expression, at: Ref, s: string) {
    exists k: nat :: Resolves(f, e, at, s, k)
  }

  ghost predicate AtomResolvable(f: Flow, a: Atom, at: Ref, s: string) {
    exists k: nat :: AtomResolves(f, a, at, s, k)
  }

  lemma {:induction false} Deeper(f: Flow, e: Expression, at: Ref, s: string, k: nat, m: nat)
    requires Resolves(f, e, at, s, k) && k <= m
    ensures Resolves(f, e, at, s, m)
    decreases k, |e|, 1
  {
    if e != [] {
      var n :| 0 <= n <= |s| && AtomResolves(f, e[0], at, s[..n], k) && Resolves(f, e[1..], at, s[n..], k);
      AtomDeeper(f, e[0], at, s[..n], k, m);
      Deeper(f, e[1..], at, s[n..], k, m);
    }
  }

  lemma {:induction false} AtomDeeper(f: Flow, a: Atom, at: Ref, s: string, k: nat, m: nat)
    requires AtomResolves(f, a, at, s, k) && k <= m
    ensures AtomResolves(f, a, at, s, m)
    decreases k, 0, 0
  {
    match a
    case Variable(symbol) =>
      var ref :| ref in RefsOf(f, at, symbol) && IsKnown(f.definitions, ref) && Resolves(f, f.definitions[ref], ref, s, k - 1);
      Deeper(f, f.definitions[ref], ref, s, k - 1, m - 1);
    case _ =>
  }

  /** s splits into a string of the first operand and a string of the others. */
  ghost predicate Splits(f: Flow, e: Expression, at: Ref, s: string, n: nat)
    requires e != []
  {
    n <= |s| && AtomResolvable(f, e[0], at, s[..n]) && Resolvable(f, e[1..], at, s[n..])
  }

  lemma {:induction false} ResolvableSplits(f: Flow, e: Expression, at: Ref, s: string)
    requires e != []
    ensures Resolvable(f, e, at, s) <==> exists n: nat :: Splits(f, e, at, s, n)
  {
    if Resolvable(f, e, at, s) {
      var k: nat :| Resolves(f, e, at, s, k);
      var n :| 0 <= n <= |s| && AtomResolves(f, e[0], at, s[..n], k) && Resolves(f, e[1..], at, s[n..], k);
      assert Splits(f, e, at, s, n);
    }
    if n: nat :| Splits(f, e, at, s, n) {
      var k: nat :| AtomResolves(f, e[0], at, s[..n], k);
      var m: nat :| Resolves(f, e[1..], at, s[n..], m);
      var d := if k < m then m else k;
      AtomDeeper(f, e[0], at, s[..n], k, d);
      Deeper(f, e[1..], at, s[n..], m, d);
      assert Resolves(f, e, at, s, d);
    }
  }

  lemma {:induction false} VariableResolvable(f: Flow, symbol: Symbol, at: Ref, s: string)
    ensures AtomResolvable(f, Variable(symbol), at, s) <==>
      exists ref | ref in RefsOf(f, at, symbol) :: IsKnown(f.definitions, ref) && Resolvable(f, f.definitions[ref], ref, s)
  {
    if AtomResolvable(f, Variable(symbol), at, s) {
      var k: nat :| AtomResolves(f, Variable(symbol), at, s, k);
      var ref :| ref in RefsOf(f, at, symbol) && IsKnown(f.definitions, ref) && Resolves(f, f.definitions[ref], ref, s, k - 1);
    }
    if ref :| ref in RefsOf(f, at, symbol) && IsKnown(f.definitions, ref) && Resolvable(f, f.definitions[ref], ref, s) {
      var k: nat :| Resolves(f, f.definitions[ref], ref, s, k);
      assert AtomResolves(f, Variable(symbol), at, s, k + 1);
    }
  }

  // ----- values -----

  predicate SameKey(a: Value, b: Value) {
    a.text == b.text && a.placeholders == b.placeholders
  }

  function AddValue(values: seq<Value>, v: Value): seq<Value> {
    if values == [] then [v]
    else if SameKey(values[0], v) then [values[0].(sources := values[0].sources + v.sources)] + values[1..]
    else [values[0]] + AddValue(values[1..], v)
  }

  /** One value per text and placeholder set, with the sources of all its occurrences. */
  function Dedupe(values: seq<Value>): seq<Value> {
    if values == [] then [] else AddValue(Dedupe(values[..|values| - 1]), values[|values| - 1])
  }

  type Key = (string, set<string>)

  ghost predicate HasKey(values: seq<Value>, key: Key) {
    exists v | v in values :: v.text == key.0 && v.placeholders == key.1
  }

  lemma {:induction false} AddValueKeys(values: seq<Value>, v: Value, key: Key)
    ensures HasKey(AddValue(values, v), key) <==> HasKey(values, key) || key == (v.text, v.placeholders)
  {
    if values == [] {
      assert v in [v];
    } else {
      AddValueKeys(values[1..], v, key);
      var r := AddValue(values, v);
      assert r[0] in r && values[0] in values;
      assert values == [values[0]] + values[1..] && r == [r[0]] + r[1..];
      assert HasKey(values, key) <==> key == (values[0].text, values[0].placeholders) || HasKey(values[1..], key);
      assert HasKey(r, key) <==> key == (r[0].text, r[0].placeholders) || HasKey(r[1..], key);
    }
  }

  lemma {:induction false} DedupeKeys(values: seq<Value>, key: Key)
    ensures HasKey(Dedupe(values), key) <==> HasKey(values, key)
  {
    if values != [] {
      var n := |values| - 1;
      DedupeKeys(values[..n], key);
      AddValueKeys(Dedupe(values[..n]), values[n], key);
      assert values == values[..n] + [values[n]];
      assert HasKey(values, key) <==> HasKey(values[..n], key) || key == (values[n].text, values[n].placeholders) by {
        assert values[n] in values;
      }
    }
  }

  predicate NoTwoAlike(values: seq<Value>) {
    forall i, j | 0 <= i < j < |values| :: !SameKey(values[i], values[j])
  }

  lemma {:induction false} AddValueKeepsApart(values: seq<Value>, v: Value)
    requires NoTwoAlike(values)
    ensures NoTwoAlike(AddValue(values, v))
  {
    if values != [] && !SameKey(values[0], v) {
      AddValueKeepsApart(values[1..], v);
      var more := AddValue(values[1..], v);
      forall w | w in more ensures !SameKey(values[0], w) {
        AddValueKeys(values[1..], v, (w.text, w.placeholders));
        assert HasKey(more, (w.text, w.placeholders));
      }
    }
  }

  /** Merging leaves no two values with the same text and placeholders. */
  lemma {:induction false} DedupeKeepsApart(values: seq<Value>)
    ensures NoTwoAlike(Dedupe(values))
  {
    if values != [] {
      DedupeKeepsApart(values[..|values| - 1]);
      AddValueKeepsApart(Dedupe(values[..|values| - 1]), values[|values| - 1]);
    }
  }

  // ----- evaluation -----

  function Placeholder(name: string): Value {
    Value("${" + name + "}", {name}, {})
  }

  function Join(a: Value, b: Value): Value {
    Value(a.text + b.text, a.placeholders + b.placeholders, a.sources + b.sources)
  }

  function JoinEach(a: Value, bs: seq<Value>): (r: seq<Value>)
    ensures |r| == |bs|
  {
    if bs == [] then [] else [Join(a, bs[0])] + JoinEach(a, bs[1..])
  }

  function JoinAll(left: seq<Value>, right: seq<Value>): seq<Value> {
    if left == [] then [] else JoinEach(left[0], right) + JoinAll(left[1..], right)
  }

  /** Every way of taking one value per operand, leftmost operand slowest. */
  function Product(alternatives: seq<seq<Value>>): seq<Value> {
    if alternatives == [] then [Value("", {}, {})] else JoinAll(alternatives[0], Product(alternatives[1..]))
  }

  function WithSource(values: seq<Value>, ref: Ref): (r: seq<Value>)
    ensures |r| == |values|
    ensures forall i | 0 <= i < |values| :: r[i].text == values[i].text && r[i].placeholders == values[i].placeholders
  {
    seq(|values|, i requires 0 <= i < |values| => values[i].(sources := values[i].sources + {ref}))
  }

  type Visited = set<(Ref, Symbol)>

  function EvalExpression(f: Flow, e: Expression, at: Ref, depth: nat, visited: Visited): (seq<Value>, bool)
    decreases MAX_EVAL_DEPTH - depth, 2, 0
  {
    if depth >= MAX_EVAL_DEPTH then ([Placeholder(f.digest(e))], false)
    else if e == [] then ([], false)
    else
      var (alternatives, exceeded) := EvalAtoms(f, e, at, depth, visited);
      if [] in alternatives then ([], exceeded)
      else
        var all := Product(alternatives);
        if |all| > MAX_VARIANTS then (Dedupe(all[..MAX_VARIANTS]), true) else (Dedupe(all), exceeded)
  }

  function EvalAtoms(f: Flow, e: Expression, at: Ref, depth: nat, visited: Visited): (r: (seq<seq<Value>>, bool))
    requires depth < MAX_EVAL_DEPTH
    ensures |r.0| == |e|
    decreases MAX_EVAL_DEPTH - depth, 1, |e|
  {
    if e == [] then ([], false)
    else
      var (first, firstExceeded) := EvalAtom(f, e[0], at, depth, visited);
      var (rest, restExceeded) := EvalAtoms(f, e[1..], at, depth, visited);
      ([first] + rest, firstExceeded || restExceeded)
  }

  function EvalAtom(f: Flow, a: Atom, at: Ref, depth: nat, visited: Visited): (seq<Value>, bool)
    requires depth < MAX_EVAL_DEPTH
    decreases MAX_EVAL_DEPTH - depth, 0, 0
  {
    match a
    case Text(text) => ([Value(text, {}, {})], false)
    case Opaque(name) => ([Placeholder(name)], false)
    case Variable(symbol) =>
      var refs := RefsOf(f, at, symbol);
      if refs != [] && (at, symbol) !in visited then
        var (values, exceeded) := EvalDefinitions(f, refs, depth + 1, visited + {(at, symbol)});
        if values != [] then (Dedupe(values), exceeded) else ([Placeholder(symbol)], false)
      else ([Placeholder(symbol)], false)
  }

  function EvalDefinitions(f: Flow, refs: seq<Ref>, depth: nat, visited: Visited): (seq<Value>, bool)
    requires depth <= MAX_EVAL_DEPTH
    decreases MAX_EVAL_DEPTH - depth, 3, |refs|
  {
    if refs == [] then ([], false)
    else
      var (rest, restExceeded) := EvalDefinitions(f, refs[1..], depth, visited);
      if refs[0] !in f.definitions then (rest, restExceeded)
      else
        var (nested, exceeded) := EvalExpression(f, f.definitions[refs[0]], refs[0], depth, visited);
        (WithSource(nested, refs[0]) + rest, exceeded || restExceeded)
  }

  // ----- exactness -----

  ghost predicate Clean(values: seq<Value>) {
    forall v | v in values :: v.placeholders == {}
  }

  ghost predicate HasText(values: seq<Value>, s: string) {
    HasKey(values, (s, {}))
  }

  /** The values are the obtainable strings, all of them and no other. */
  ghost predicate ExactFor(f: Flow, e: Expression, at: Ref, values: seq<Value>) {
    forall s :: HasText(values, s) <==> Resolvable(f, e, at, s)
  }

  lemma {:induction false} DedupeIsTransparent(values: seq<Value>)
    ensures Clean(Dedupe(values)) <==> Clean(values)
    ensures forall s :: HasText(Dedupe(values), s) <==> HasText(values, s)
    ensures values != [] ==> Dedupe(values) != []
  {
    forall key ensures HasKey(Dedupe(values), key) <==> HasKey(values, key) {
      DedupeKeys(values, key);
    }
    forall v | v in values ensures HasKey(Dedupe(values), (v.text, v.placeholders)) {
      assert HasKey(values, (v.text, v.placeholders));
    }
    forall v | v in Dedupe(values) ensures HasKey(values, (v.text, v.placeholders)) {
      assert HasKey(Dedupe(values), (v.text, v.placeholders));
    }
    if values != [] {
      assert values[0] in values;
    }
  }

  lemma {:induction false} AppendKeys(a: seq<Value>, b: seq<Value>)
    ensures forall key :: HasKey(a + b, key) <==> HasKey(a, key) || HasKey(b, key)
    ensures Clean(a + b) <==> Clean(a) && Clean(b)
  {
    assert forall v :: v in a + b <==> v in a || v in b;
  }

  /** t is a text of the left values followed by a text of the right values. */
  ghost predicate Concatenates(left: seq<Value>, right: seq<Value>, t: string, n: nat) {
    n <= |t| && HasText(left, t[..n]) && HasText(right, t[n..])
  }

  ghost predicate SomeConcatenation(left: seq<Value>, right: seq<Value>, t: string) {
    exists n: nat :: Concatenates(left, right, t, n)
  }

  /** t is the text of a followed by a text of the right values. */
  ghost predicate StartsWith(a: Value, right: seq<Value>, t: string) {
    |a.text| <= |t| && t[..|a.text|] == a.text && HasText(right, t[|a.text|..])
  }

  lemma {:induction false} JoinEachKeys(a: Value, bs: seq<Value>, t: string)
    requires a.placeholders == {} && Clean(bs)
    ensures Clean(JoinEach(a, bs))
    ensures HasText(JoinEach(a, bs), t) <==> StartsWith(a, bs, t)
  {
    if bs != [] {
      JoinEachKeys(a, bs[1..], t);
      var first := Join(a, bs[0]);
      assert bs[0] in bs && bs == [bs[0]] + bs[1..];
      AppendKeys([first], JoinEach(a, bs[1..]));
      AppendKeys([bs[0]], bs[1..]);
      assert HasText([first], t) <==> StartsWith(a, [bs[0]], t) by {
        assert first in [first] && bs[0] in [bs[0]];
        if |a.text| <= |t| {
          assert t == t[..|a.text|] + t[|a.text|..];
        }
      }
    }
  }

  lemma {:induction false} JoinAllKeys(left: seq<Value>, right: seq<Value>, t: string)
    requires Clean(left) && Clean(right)
    ensures Clean(JoinAll(left, right))
    ensures HasText(JoinAll(left, right), t) <==> SomeConcatenation(left, right, t)
  {
    if left != [] {
      var a, rest := left[0], left[1..];
      assert a in left && left == [a] + rest;
      JoinEachKeys(a, right, t);
      JoinAllKeys(rest, right, t);
      AppendKeys(JoinEach(a, right), JoinAll(rest, right));
      JoinAllStep(a, rest, right, t);
    }
  }

  lemma {:induction false} JoinAllStep(a: Value, rest: seq<Value>, right: seq<Value>, t: string)
    requires a.placeholders == {}
    ensures SomeConcatenation([a] + rest, right, t) <==> StartsWith(a, right, t) || SomeConcatenation(rest, right, t)
  {
    AppendKeys([a], rest);
    assert a in [a];
    if StartsWith(a, right, t) {
      assert Concatenates([a] + rest, right, t, |a.text|);
    }
    if n: nat :| Concatenates(rest, right, t, n) {
      assert Concatenates([a] + rest, right, t, n);
    }
    if n: nat :| Concatenates([a] + rest, right, t, n) {
      if HasText([a], t[..n]) {
        assert n == |a.text|;
      } else {
        assert Concatenates(rest, right, t, n);
      }
    }
  }

  lemma {:induction false} JoinClean(left: seq<Value>, right: seq<Value>)
    requires left != [] && right != [] && Clean(JoinAll(left, right))
    ensures Clean(left) && Clean(right)
  {
    AppendKeys(JoinEach(left[0], right), JoinAll(left[1..], right));
    JoinEachClean(left[0], right);
    if left[1..] != [] {
      JoinClean(left[1..], right);
    }
    assert left == [left[0]] + left[1..];
  }

  lemma {:induction false} JoinEachClean(a: Value, bs: seq<Value>)
    requires bs != [] && Clean(JoinEach(a, bs))
    ensures a.placeholders == {} && Clean(bs)
  {
    AppendKeys([Join(a, bs[0])], JoinEach(a, bs[1..]));
    assert Join(a, bs[0]) in [Join(a, bs[0])];
    if bs[1..] != [] {
      JoinEachClean(a, bs[1..]);
    }
    assert bs == [bs[0]] + bs[1..];
  }

  /** The values of each operand of e are exact. */
  ghost predicate AtomsExact(f: Flow, e: Expression, at: Ref, alternatives: seq<seq<Value>>) {
    && |alternatives| == |e|
    && forall i | 0 <= i < |e| :: forall s :: HasText(alternatives[i], s) <==> AtomResolvable(f, e[i], at, s)
  }

  lemma {:induction false} ProductIsExact(f: Flow, e: Expression, at: Ref, alternatives: seq<seq<Value>>)
    requires AtomsExact(f, e, at, alternatives)
    requires forall a | a in alternatives :: Clean(a)
    ensures Clean(Product(alternatives)) && ExactFor(f, e, at, Product(alternatives))
    decreases e
  {
    if e == [] {
      var unit := Value("", {}, {});
      assert unit in [unit];
      forall s ensures Resolvable(f, e, at, s) <==> s == "" {
        assert Resolves(f, e, at, s, 0) <==> s == "";
      }
    } else {
      var first, rest := alternatives[0], alternatives[1..];
      assert first in alternatives;
      ProductIsExact(f, e[1..], at, rest);
      JoinAllKeys(first, Product(rest), "");
      forall s ensures HasText(Product(alternatives), s) <==> Resolvable(f, e, at, s) {
        JoinAllKeys(first, Product(rest), s);
        ResolvableSplits(f, e, at, s);
        forall n: nat ensures Concatenates(first, Product(rest), s, n) <==> Splits(f, e, at, s, n) {
        }
      }
    }
  }

  lemma {:induction false} ProductIsDirty(alternatives: seq<seq<Value>>)
    requires [] !in alternatives
    ensures Product(alternatives) != []
    ensures Clean(Product(alternatives)) ==> forall a | a in alternatives :: Clean(a)
  {
    if alternatives != [] {
      var first, rest := alternatives[0], alternatives[1..];
      ProductIsDirty(rest);
      assert first in alternatives && alternatives == [first] + rest;
      assert |JoinEach(first[0], Product(rest))| > 0;
      if Clean(Product(alternatives)) {
        JoinClean(first, Product(rest));
      }
    }
  }

  /** What evaluation promises: something is always returned, and unless the budget was exceeded
      or a placeholder remains, exactly the obtainable strings are. */
  ghost predicate Promise(f: Flow, e: Expression, at: Ref, result: (seq<Value>, bool)) {
    result.0 != [] && (!result.1 && Clean(result.0) ==> ExactFor(f, e, at, result.0))
  }

  /** An evaluation that neither exceeded the budget nor left a placeholder. */
  ghost predicate IsDone(result: (seq<Value>, bool)) {
    result.0 != [] && !result.1 && Clean(result.0)
  }

  lemma {:induction false} PlaceholderIsDirty(name: string)
    ensures !Clean([Placeholder(name)])
  {
    assert Placeholder(name) in [Placeholder(name)] && name in Placeholder(name).placeholders;
  }

  lemma {:induction false} ExpressionIsExact(f: Flow, e: Expression, at: Ref, depth: nat, visited: Visited)
    requires e != []
    ensures Promise(f, e, at, EvalExpression(f, e, at, depth, visited))
    decreases MAX_EVAL_DEPTH - depth, 2, 0
  {
    if depth >= MAX_EVAL_DEPTH {
      PlaceholderIsDirty(f.digest(e));
    } else {
      var (alternatives, exceeded) := EvalAtoms(f, e, at, depth, visited);
      AtomsAreExact(f, e, at, depth, visited);
      ProductIsDirty(alternatives);
      var all := Product(alternatives);
      DedupeIsTransparent(all);
      DedupeIsTransparent(all[..if |all| > MAX_VARIANTS then MAX_VARIANTS else 0]);
      if !exceeded && |all| <= MAX_VARIANTS && Clean(all) {
        ProductIsExact(f, e, at, alternatives);
      }
    }
  }

  lemma {:induction false} AtomsAreExact(f: Flow, e: Expression, at: Ref, depth: nat, visited: Visited)
    requires depth < MAX_EVAL_DEPTH
    ensures var (alternatives, exceeded) := EvalAtoms(f, e, at, depth, visited);
      && [] !in alternatives
      && (!exceeded && (forall a | a in alternatives :: Clean(a)) ==> AtomsExact(f, e, at, alternatives))
    decreases MAX_EVAL_DEPTH - depth, 1, |e|
  {
    if e != [] {
      AtomIsExact(f, e[0], at, depth, visited);
      AtomsAreExact(f, e[1..], at, depth, visited);
      var (alternatives, exceeded) := EvalAtoms(f, e, at, depth, visited);
      assert alternatives[0] in alternatives;
      assert forall a | a in alternatives[1..] :: a in alternatives;
    }
  }

  lemma {:induction false} AtomIsExact(f: Flow, a: Atom, at: Ref, depth: nat, visited: Visited)
    requires depth < MAX_EVAL_DEPTH
    ensures var (values, exceeded) := EvalAtom(f, a, at, depth, visited);
      && values != []
      && (!exceeded && Clean(values) ==> forall s :: HasText(values, s) <==> AtomResolvable(f, a, at, s))
    decreases MAX_EVAL_DEPTH - depth, 0, 0
  {
    hide EvalDefinitions, HasText, Clean, AtomResolvable, Dedupe;
    match a
    case Text(text) => TextIsExact(f, text, at);
    case Opaque(name) => PlaceholderIsDirty(name);
    case Variable(symbol) =>
      PlaceholderIsDirty(symbol);
      var refs := RefsOf(f, at, symbol);
      if refs != [] && (at, symbol) !in visited {
        var inner := visited + {(at, symbol)};
        DefinitionsAreExact(f, refs, depth + 1, inner);
        var (values, exceeded) := EvalDefinitions(f, refs, depth + 1, inner);
        DedupeIsTransparent(values);
        VariableIsDefined(f, symbol, at);
        assert values != [] ==> EvalAtom(f, a, at, depth, visited) == (Dedupe(values), exceeded);
        if values != [] {
          DedupeKeepsSome(values);
        }
      }
  }

  lemma {:induction false} DedupeKeepsSome(values: seq<Value>)
    requires values != []
    ensures Dedupe(values) != []
  {
  }

  lemma {:induction false} TextIsExact(f: Flow, text: string, at: Ref)
    ensures forall s :: HasText([Value(text, {}, {})], s) <==> AtomResolvable(f, Text(text), at, s)
  {
    var v := Value(text, {}, {});
    assert v in [v];
    forall s ensures AtomResolvable(f, Text(text), at, s) <==> s == text {
      assert AtomResolves(f, Text(text), at, s, 0) <==> s == text;
    }
  }

  lemma {:induction false} VariableIsDefined(f: Flow, symbol: Symbol, at: Ref)
    ensures forall s :: AtomResolvable(f, Variable(symbol), at, s) <==> DefinedAs(f, RefsOf(f, at, symbol), s)
  {
    forall s ensures AtomResolvable(f, Variable(symbol), at, s) <==> DefinedAs(f, RefsOf(f, at, symbol), s) {
      VariableResolvable(f, symbol, at, s);
    }
  }

  /** s is obtainable from a known one of the given definitions. */
  ghost predicate DefinedAs(f: Flow, refs: seq<Ref>, s: string) {
    exists ref | ref in refs :: IsKnown(f.definitions, ref) && Resolvable(f, f.definitions[ref], ref, s)
  }

  lemma {:induction false} SourceIsTransparent(values: seq<Value>, ref: Ref)
    ensures Clean(WithSource(values, ref)) <==> Clean(values)
    ensures forall s :: HasText(WithSource(values, ref), s) <==> HasText(values, s)
  {
    var r := WithSource(values, ref);
    assert forall i | 0 <= i < |values| :: r[i] in r && values[i] in values;
  }

  lemma {:induction false} DefinitionsAreExact(f: Flow, refs: seq<Ref>, depth: nat, visited: Visited)
    requires depth <= MAX_EVAL_DEPTH
    ensures var (values, exceeded) := EvalDefinitions(f, refs, depth, visited);
      !exceeded && Clean(values) ==> forall s :: HasText(values, s) <==> DefinedAs(f, refs, s)
    decreases MAX_EVAL_DEPTH - depth, 3, |refs|
  {
    if refs != [] {
      var ref := refs[0];
      DefinitionsAreExact(f, refs[1..], depth, visited);
      DefinedAsEither(f, refs);
      if ref in f.definitions {
        var (rest, _) := EvalDefinitions(f, refs[1..], depth, visited);
        var (nested, _) := EvalExpression(f, f.definitions[ref], ref, depth, visited);
        SourceIsTransparent(nested, ref);
        AppendKeys(WithSource(nested, ref), rest);
        if f.definitions[ref] != [] {
          ExpressionIsExact(f, f.definitions[ref], ref, depth, visited);
        } else {
          EmptyExpressionIsDropped(f, ref, depth, visited);
        }
      }
    }
  }

  lemma {:induction false} DefinedAsEither(f: Flow, refs: seq<Ref>)
    requires refs != []
    ensures forall s :: DefinedAs(f, refs, s) <==>
      (IsKnown(f.definitions, refs[0]) && Resolvable(f, f.definitions[refs[0]], refs[0], s)) || DefinedAs(f, refs[1..], s)
  {
    assert refs == [refs[0]] + refs[1..];
    assert refs[0] in refs;
  }

  lemma {:induction false} EmptyExpressionIsDropped(f: Flow, ref: Ref, depth: nat, visited: Visited)
    requires depth <= MAX_EVAL_DEPTH && ref in f.definitions && f.definitions[ref] == []
    ensures var (values, exceeded) := EvalExpression(f, f.definitions[ref], ref, depth, visited);
      if depth < MAX_EVAL_DEPTH then values == [] else !Clean(values)
  {
    PlaceholderIsDirty(f.digest([]));
  }

  // ----- the verdict on an execute site -----

  /** EXECUTE IMMEDIATE evaluates its own expression; EXECUTE evaluates the source of every
      PREPARE that reaches it. */
  datatype Site = Immediate(at: Ref, source: Expression) | Prepared(prepares: seq<Ref>)

  datatype Status =
    | StaticallyReconstructed | EnumerableVariants | PartiallyReconstructed
    | RuntimeCaptureRequired | Unresolved | BudgetExceeded

  datatype Variant = Variant(text: string, placeholders: set<string>, kindKnown: bool, sources: set<Ref>)

  /** How a text is trimmed, which trimmed texts start a known statement, and which of them have a
      placeholder in a structural position. */
  datatype Reader = Reader(trim: string -> string, kindKnown: string -> bool, structural: string -> bool)

  ghost predicate Obtainable(f: Flow, site: Site, s: string) {
    match site
    case Immediate(at, source) => Resolvable(f, source, at, s)
    case Prepared(prepares) => DefinedAs(f, prepares, s)
  }

  function ValuesForExecute(f: Flow, site: Site): (seq<Value>, bool) {
    match site
    case Immediate(at, source) => EvalExpression(f, source, at, 0, {})
    case Prepared(prepares) =>
      var (values, exceeded) := EvalPrepares(f, prepares);
      (Dedupe(values), exceeded)
  }

  function EvalPrepares(f: Flow, prepares: seq<Ref>): (seq<Value>, bool) {
    if prepares == [] then ([], false)
    else
      var (rest, restExceeded) := EvalPrepares(f, prepares[1..]);
      if prepares[0] !in f.definitions then (rest, restExceeded)
      else
        var (values, exceeded) := EvalExpression(f, f.definitions[prepares[0]], prepares[0], 0, {});
        (values + rest, exceeded || restExceeded)
  }

  function BuildVariants(r: Reader, values: seq<Value>): set<Variant> {
    set v | v in values :: Variant(r.trim(v.text), v.placeholders, r.kindKnown(r.trim(v.text)), v.sources)
  }

  function ResolutionStatus(r: Reader, variants: set<Variant>, exceeded: bool): Status {
    if exceeded then BudgetExceeded
    else if variants == {} then Unresolved
    else if forall v | v in variants :: v.kindKnown then
      if forall v | v in variants :: v.placeholders == {} then
        if |variants| == 1 then StaticallyReconstructed else EnumerableVariants
      else if forall v | v in variants :: !r.structural(v.text) then PartiallyReconstructed
      else RuntimeCaptureRequired
    else RuntimeCaptureRequired
  }

  predicate Reconstructed(status: Status) {
    status == StaticallyReconstructed || status == EnumerableVariants
  }

  ghost predicate IsVariant(variants: set<Variant>, t: string) {
    exists v | v in variants :: v.text == t
  }

  ghost predicate TrimsFrom(f: Flow, site: Site, r: Reader, t: string) {
    exists s | Obtainable(f, site, s) :: r.trim(s) == t
  }

  lemma {:induction false} PreparesAreExact(f: Flow, prepares: seq<Ref>)
    ensures var (values, exceeded) := EvalPrepares(f, prepares);
      !exceeded && Clean(values) ==> forall s :: HasText(values, s) <==> DefinedAs(f, prepares, s)
  {
    if prepares != [] {
      var ref := prepares[0];
      PreparesAreExact(f, prepares[1..]);
      DefinedAsEither(f, prepares);
      if ref in f.definitions {
        var (rest, _) := EvalPrepares(f, prepares[1..]);
        var (values, _) := EvalExpression(f, f.definitions[ref], ref, 0, {});
        AppendKeys(values, rest);
        if f.definitions[ref] != [] {
          ExpressionIsExact(f, f.definitions[ref], ref, 0, {});
        } else {
          EmptyExpressionIsDropped(f, ref, 0, {});
        }
      }
    }
  }

  /** A site reported as reconstructed has, up to trimming, exactly the obtainable strings as its
      variants: neither the depth limit, nor the cycle limit, nor the budget dropped one. */
  lemma {:induction false} ReconstructedIsExact(f: Flow, site: Site, r: Reader)
    ensures var (values, exceeded) := ValuesForExecute(f, site);
      var variants := BuildVariants(r, values);
      var status := ResolutionStatus(r, variants, exceeded);
      status == StaticallyReconstructed || status == EnumerableVariants ==>
        forall t :: IsVariant(variants, t) <==> TrimsFrom(f, site, r, t)
  {
    var (values, exceeded) := ValuesForExecute(f, site);
    var variants := BuildVariants(r, values);
    var status := ResolutionStatus(r, variants, exceeded);
    if status == StaticallyReconstructed || status == EnumerableVariants {
      forall v | v in values ensures v.placeholders == {} {
        assert Variant(r.trim(v.text), v.placeholders, r.kindKnown(r.trim(v.text)), v.sources) in variants;
      }
      forall s ensures HasText(values, s) <==> Obtainable(f, site, s) {
        match site
        case Immediate(at, source) =>
          if source != [] {
            ExpressionIsExact(f, source, at, 0, {});
          }
        case Prepared(prepares) =>
          PreparesAreExact(f, prepares);
          DedupeIsTransparent(EvalPrepares(f, prepares).0);
      }
      forall t ensures IsVariant(variants, t) <==> TrimsFrom(f, site, r, t) {
        if v :| v in variants && v.text == t {
          var x :| x in values && r.trim(x.text) == t;
          assert HasText(values, x.text);
        }
        if s :| Obtainable(f, site, s) && r.trim(s) == t {
          assert HasText(values, s);
          var x :| x in values && x.text == s;
          assert Variant(r.trim(x.text), x.placeholders, r.kindKnown(r.trim(x.text)), x.sources) in variants;
        }
      }
    }
  }

  /** When nothing was exceeded and no placeholder remains, the values are the obtainable strings. */
  lemma {:induction false} DoneIsObtainable(f: Flow, site: Site, s: string)
    requires IsDone(ValuesForExecute(f, site))
    ensures HasText(ValuesForExecute(f, site).0, s) <==> Obtainable(f, site, s)
  {
    match site
    case Immediate(at, source) =>
      if source != [] {
        ExpressionIsExact(f, source, at, 0, {});
      }
    case Prepared(prepares) =>
      PreparesAreExact(f, prepares);
      DedupeIsTransparent(EvalPrepares(f, prepares).0);
  }

  lemma {:induction false} CleanVariants(r: Reader, values: seq<Value>)
    requires values != [] && Clean(values)
    ensures var variants := BuildVariants(r, values);
      && variants != {} && (forall v | v in variants :: v.placeholders == {})
      && ((forall v | v in variants :: v.kindKnown) <==> forall v | v in values :: r.kindKnown(r.trim(v.text)))
  {
    var variants := BuildVariants(r, values);
    forall v | v in values
      ensures Variant(r.trim(v.text), v.placeholders, r.kindKnown(r.trim(v.text)), v.sources) in variants
    {
    }
    assert values[0] in values;
    if forall v | v in variants :: v.kindKnown {
      forall v | v in values ensures r.kindKnown(r.trim(v.text)) {
        assert Variant(r.trim(v.text), v.placeholders, r.kindKnown(r.trim(v.text)), v.sources).kindKnown;
      }
    }
  }

  lemma {:induction false} CleanTexts(values: seq<Value>, s: string)
    requires Clean(values)
    ensures HasText(values, s) <==> exists v | v in values :: v.text == s
  {
  }

  /** Then the kinds of the strings alone decide whether the site is reconstructed. */
  lemma {:induction false} DoneIsReconstructed(f: Flow, site: Site, r: Reader)
    requires IsDone(ValuesForExecute(f, site))
    ensures var (values, exceeded) := ValuesForExecute(f, site);
      Reconstructed(ResolutionStatus(r, BuildVariants(r, values), exceeded)) <==>
        forall s | Obtainable(f, site, s) :: r.kindKnown(r.trim(s))
  {
    var values := ValuesForExecute(f, site).0;
    CleanVariants(r, values);
    hide ValuesForExecute, Obtainable, BuildVariants, HasText, Clean;
    forall s ensures Obtainable(f, site, s) <==> exists v | v in values :: v.text == s {
      DoneIsObtainable(f, site, s);
      CleanTexts(values, s);
    }
    assert (forall v | v in values :: r.kindKnown(r.trim(v.text))) <==>
      forall s | Obtainable(f, site, s) :: r.kindKnown(r.trim(s)) by {
      forall v | v in values ensures Obtainable(f, site, v.text) {
      }
    }
  }

  // ----- the evaluator as it runs -----

  method DedupeValues(values: seq<Value>) returns (r: seq<Value>)
    ensures r == Dedupe(values)
  {
    r := [];
    for i := 0 to |values|
      invariant r == Dedupe(values[..i])
    {
      assert values[..i + 1][..i] == values[..i];
      r := AddValue(r, values[i]);
    }
    assert values[..|values|] == values;
  }

  /** How many combinations there are. */
  function Count(alternatives: seq<seq<Value>>): nat {
    if alternatives == [] then 1 else |alternatives[0]| * Count(alternatives[1..])
  }

  lemma {:induction false} JoinAllSize(left: seq<Value>, right: seq<Value>)
    ensures |JoinAll(left, right)| == |left| * |right|
  {
    if left != [] {
      JoinAllSize(left[1..], right);
      assert |left| * |right| == |right| + |left[1..]| * |right|;
    }
  }

  lemma {:induction false} ProductSize(alternatives: seq<seq<Value>>)
    ensures |Product(alternatives)| == Count(alternatives)
  {
    if alternatives != [] {
      ProductSize(alternatives[1..]);
      JoinAllSize(alternatives[0], Product(alternatives[1..]));
    }
  }

  /** What the budget leaves of a list. */
  function FirstFew(values: seq<Value>): seq<Value> {
    if |values| <= MAX_VARIANTS then values else values[..MAX_VARIANTS]
  }

  lemma {:induction false} FewOfFew(a: seq<Value>, b: seq<Value>)
    ensures FirstFew(FirstFew(a) + b) == FirstFew(a + b)
  {
  }

  lemma {:induction false} JoinAssociates(a: Value, b: Value, c: Value)
    ensures Join(a, Join(b, c)) == Join(Join(a, b), c)
  {
    assert a.text + (b.text + c.text) == a.text + b.text + c.text;
    assert a.placeholders + (b.placeholders + c.placeholders) == a.placeholders + b.placeholders + c.placeholders;
    assert a.sources + (b.sources + c.sources) == a.sources + b.sources + c.sources;
  }

  lemma {:induction false} JoinWithNothing(v: Value)
    ensures Join(Value("", {}, {}), v) == v && Join(v, Value("", {}, {})) == v
  {
    assert "" + v.text == v.text && v.text + "" == v.text;
    assert {} + v.placeholders == v.placeholders && {} + v.sources == v.sources;
  }

  lemma {:induction false} JoinEachTwice(p: Value, v: Value, bs: seq<Value>)
    ensures JoinEach(p, JoinEach(v, bs)) == JoinEach(Join(p, v), bs)
  {
    if bs != [] {
      JoinEachTwice(p, v, bs[1..]);
      JoinAssociates(p, v, bs[0]);
      assert JoinEach(v, bs)[1..] == JoinEach(v, bs[1..]);
    }
  }

  lemma {:induction false} JoinEachOver(p: Value, a: seq<Value>, b: seq<Value>)
    ensures JoinEach(p, a + b) == JoinEach(p, a) + JoinEach(p, b)
  {
    if a == [] {
      assert a + b == b;
    } else {
      assert (a + b)[1..] == a[1..] + b;
      JoinEachOver(p, a[1..], b);
    }
  }

  lemma {:induction false} JoinAllOver(a: seq<Value>, v: Value, right: seq<Value>)
    ensures JoinAll(a + [v], right) == JoinAll(a, right) + JoinEach(v, right)
  {
    if a == [] {
      assert a + [v] == [v] && [v][1..] == [];
    } else {
      assert (a + [v])[1..] == a[1..] + [v];
      JoinAllOver(a[1..], v, right);
    }
  }

  lemma {:induction false} JoinUnit(p: Value)
    ensures JoinEach(p, Product([])) == [p]
  {
    assert Product([])[1..] == [];
    JoinWithNothing(p);
  }

  lemma {:induction false} EnumerateOne(prefix: Value, first: seq<Value>, i: nat, right: seq<Value>, before: seq<Value>)
    requires i < |first|
    ensures FirstFew(FirstFew(before + JoinEach(prefix, JoinAll(first[..i], right))) + JoinEach(Join(prefix, first[i]), right))
      == FirstFew(before + JoinEach(prefix, JoinAll(first[..i + 1], right)))
  {
    hide FirstFew, JoinAll, JoinEach;
    var done := JoinEach(prefix, JoinAll(first[..i], right));
    var more := JoinEach(Join(prefix, first[i]), right);
    JoinAllOver(first[..i], first[i], right);
    assert first[..i + 1] == first[..i] + [first[i]];
    JoinEachOver(prefix, JoinAll(first[..i], right), JoinEach(first[i], right));
    JoinEachTwice(prefix, first[i], right);
    FewOfFew(before + done, more);
    assert before + done + more == before + (done + more);
  }

  /** Goes through the combinations behind a prefix, leftmost operand slowest, and stops as soon as
      the budget is used up. */
  method Enumerate(alternatives: seq<seq<Value>>, prefix: Value, before: seq<Value>) returns (r: seq<Value>)
    requires |before| <= MAX_VARIANTS
    ensures r == FirstFew(before + JoinEach(prefix, Product(alternatives)))
    decreases |alternatives|
  {
    if |before| == MAX_VARIANTS {
      return before;
    }
    if alternatives == [] {
      JoinUnit(prefix);
      return before + [prefix];
    }
    var first, others := alternatives[0], alternatives[1..];
    ghost var right := Product(others);
    r := before;
    assert before + [] == before;
    for i := 0 to |first|
      invariant |r| <= MAX_VARIANTS && r == FirstFew(before + JoinEach(prefix, JoinAll(first[..i], right)))
    {
      EnumerateOne(prefix, first, i, right, before);
      r := Enumerate(others, Join(prefix, first[i]), r);
    }
    assert first[..|first|] == first;
  }

  /** At most as many of the combinations as the budget allows, in order, and whether there are more. */
  method Combinations(alternatives: seq<seq<Value>>) returns (r: seq<Value>, over: bool)
    ensures var all := Product(alternatives);
      over == (|all| > MAX_VARIANTS) && r == if over then all[..MAX_VARIANTS] else all
  {
    var count: int := 1;
    for i := 0 to |alternatives|
      invariant count * Count(alternatives[i..]) == Count(alternatives)
    {
      assert alternatives[i..][0] == alternatives[i] && alternatives[i..][1..] == alternatives[i + 1..];
      Associates(count, |alternatives[i]|, Count(alternatives[i + 1..]));
      count := count * |alternatives[i]|;
    }
    assert alternatives[|alternatives|..] == [];
    ProductSize(alternatives);
    over := count > MAX_VARIANTS;
    var unit := Value("", {}, {});
    r := Enumerate(alternatives, unit, []);
    JoinNothing(Product(alternatives));
    assert [] + Product(alternatives) == Product(alternatives);
  }

  lemma {:induction false} Associates(a: int, b: int, c: int)
    ensures (a * b) * c == a * (b * c)
  {
  }

  lemma {:induction false} JoinNothing(values: seq<Value>)
    ensures JoinEach(Value("", {}, {}), values) == values
  {
    if values != [] {
      JoinNothing(values[1..]);
      JoinWithNothing(values[0]);
      assert values == [values[0]] + values[1..];
    }
  }

  method EvaluateExpression(f: Flow, e: Expression, at: Ref, depth: nat, visited: Visited)
      returns (values: seq<Value>, exceeded: bool)
    ensures (values, exceeded) == EvalExpression(f, e, at, depth, visited)
    decreases MAX_EVAL_DEPTH - depth, 1
  {
    hide EvalAtom, Product, Dedupe;
    if depth >= MAX_EVAL_DEPTH {
      return [Placeholder(f.digest(e))], false;
    }
    if e == [] {
      return [], false;
    }
    var alternatives: seq<seq<Value>> := [];
    exceeded := false;
    assert e[0..] == e && alternatives + EvalAtoms(f, e, at, depth, visited).0 == EvalAtoms(f, e, at, depth, visited).0;
    for i := 0 to |e|
      invariant var (rest, over) := EvalAtoms(f, e[i..], at, depth, visited);
        EvalAtoms(f, e, at, depth, visited) == (alternatives + rest, exceeded || over)
    {
      assert e[i..][0] == e[i] && e[i..][1..] == e[i + 1..];
      ghost var rest := EvalAtoms(f, e[i + 1..], at, depth, visited).0;
      var first, over := EvaluateAtom(f, e[i], at, depth, visited);
      assert alternatives + ([first] + rest) == alternatives + [first] + rest;
      alternatives, exceeded := alternatives + [first], exceeded || over;
    }
    assert e[|e|..] == [] && alternatives + [] == alternatives;
    if [] in alternatives {
      return [], exceeded;
    }
    var combined, over := Combinations(alternatives);
    values := DedupeValues(combined);
    exceeded := exceeded || over;
  }

  method EvaluateAtom(f: Flow, a: Atom, at: Ref, depth: nat, visited: Visited)
      returns (values: seq<Value>, exceeded: bool)
    requires depth < MAX_EVAL_DEPTH
    ensures (values, exceeded) == EvalAtom(f, a, at, depth, visited)
    decreases MAX_EVAL_DEPTH - depth, 0
  {
    hide EvalExpression, Dedupe;
    match a
    case Text(text) => return [Value(text, {}, {})], false;
    case Opaque(name) => return [Placeholder(name)], false;
    case Variable(symbol) =>
      var refs := RefsOf(f, at, symbol);
      if refs != [] && (at, symbol) !in visited {
        values, exceeded := [], false;
        var seen := visited + {(at, symbol)};
        assert refs[0..] == refs && values + EvalDefinitions(f, refs, depth + 1, seen).0 == EvalDefinitions(f, refs, depth + 1, seen).0;
        for i := 0 to |refs|
          invariant var (rest, over) := EvalDefinitions(f, refs[i..], depth + 1, seen);
            EvalDefinitions(f, refs, depth + 1, seen) == (values + rest, exceeded || over)
        {
          assert refs[i..][0] == refs[i] && refs[i..][1..] == refs[i + 1..];
          if refs[i] in f.definitions {
            ghost var rest := EvalDefinitions(f, refs[i + 1..], depth + 1, seen).0;
            var nested, over := EvaluateExpression(f, f.definitions[refs[i]], refs[i], depth + 1, seen);
            assert values + (WithSource(nested, refs[i]) + rest) == values + WithSource(nested, refs[i]) + rest;
            values, exceeded := values + WithSource(nested, refs[i]), exceeded || over;
          }
        }
        assert refs[|refs|..] == [] && values + [] == values;
        if values != [] {
          values := DedupeValues(values);
          return;
        }
      }
      return [Placeholder(symbol)], false;
  }

  /** The values of an execute site and whether the budget was exceeded. */
  method EvaluateSite(f: Flow, site: Site) returns (values: seq<Value>, exceeded: bool)
    ensures (values, exceeded) == ValuesForExecute(f, site)
  {
    hide EvalExpression, Dedupe;
    match site
    case Immediate(at, source) => values, exceeded := EvaluateExpression(f, source, at, 0, {});
    case Prepared(prepares) =>
      values, exceeded := [], false;
      assert prepares[0..] == prepares && values + EvalPrepares(f, prepares).0 == EvalPrepares(f, prepares).0;
      for i := 0 to |prepares|
        invariant var (rest, over) := EvalPrepares(f, prepares[i..]);
          EvalPrepares(f, prepares) == (values + rest, exceeded || over)
      {
        assert prepares[i..][0] == prepares[i] && prepares[i..][1..] == prepares[i + 1..];
        if prepares[i] in f.definitions {
          ghost var rest := EvalPrepares(f, prepares[i + 1..]).0;
          var resolved, over := EvaluateExpression(f, f.definitions[prepares[i]], prepares[i], 0, {});
          assert values + (resolved + rest) == values + resolved + rest;
          values, exceeded := values + resolved, exceeded || over;
        }
      }
      assert prepares[|prepares|..] == [] && values + [] == values;
      values := DedupeValues(values);
  }

  /** Reconstructs a site.  If it is reported as reconstructed, its variants are the obtainable
      strings, trimmed. */
  method Reconstruct(f: Flow, site: Site, r: Reader) returns (variants: set<Variant>, status: Status)
    ensures Reconstructed(status) ==> forall t :: IsVariant(variants, t) <==> TrimsFrom(f, site, r, t)
    ensures variants == BuildVariants(r, ValuesForExecute(f, site).0)
    ensures status == ResolutionStatus(r, variants, ValuesForExecute(f, site).1)
    ensures status == BudgetExceeded <==> ValuesForExecute(f, site).1
    ensures status == Unresolved <==> !ValuesForExecute(f, site).1 && variants == {}
    ensures Reconstructed(status) <==>
      && !ValuesForExecute(f, site).1 && variants != {}
      && forall v | v in variants :: v.kindKnown && v.placeholders == {}
    ensures status == StaticallyReconstructed <==> Reconstructed(status) && |variants| == 1
    ensures status == PartiallyReconstructed <==>
      && !ValuesForExecute(f, site).1 && (forall v | v in variants :: v.kindKnown && !r.structural(v.text))
      && exists v | v in variants :: v.placeholders != {}
  {
    hide IsVariant, TrimsFrom;
    var values, exceeded := EvaluateSite(f, site);
    variants := BuildVariants(r, values);
    status := ResolutionStatus(r, variants, exceeded);
    ReconstructedIsExact(f, site, r);
  }

  /** A name that is under evaluation already, or has no known definition, stays a placeholder. */
  lemma {:induction false} LostNameIsPlaceholder(f: Flow, symbol: Symbol, at: Ref, depth: nat, visited: Visited)
    requires depth + 1 < 12
    requires (at, symbol) in visited || forall ref | ref in RefsOf(f, at, symbol) :: !IsKnown(f.definitions, ref)
    ensures EvalAtom(f, Variable(symbol), at, depth, visited) == ([Placeholder(symbol)], false)
  {
    if (at, symbol) !in visited {
      NothingIsKnown(f, RefsOf(f, at, symbol), depth + 1, visited + {(at, symbol)});
    }
  }

  lemma {:induction false} NothingIsKnown(f: Flow, refs: seq<Ref>, depth: nat, visited: Visited)
    requires depth < 12 && forall ref | ref in refs :: !IsKnown(f.definitions, ref)
    ensures EvalDefinitions(f, refs, depth, visited) == ([], false)
  {
    if refs != [] {
      assert refs[0] in refs;
      UnknownDefinitionIsDropped(f, refs, depth, visited);
      NothingIsKnown(f, refs[1..], depth, visited);
    }
  }

  /** A definition without an expression, or with one without any operand, is dropped: it leaves no
      trace in the values, not even a placeholder. */
  lemma {:induction false} UnknownDefinitionIsDropped(f: Flow, refs: seq<Ref>, depth: nat, visited: Visited)
    requires refs != [] && !IsKnown(f.definitions, refs[0]) && depth < MAX_EVAL_DEPTH
    ensures EvalDefinitions(f, refs, depth, visited) == EvalDefinitions(f, refs[1..], depth, visited)
  {
    if refs[0] in f.definitions {
      var (rest, over) := EvalDefinitions(f, refs[1..], depth, visited);
      assert EvalExpression(f, [], refs[0], depth, visited) == ([], false);
      assert WithSource([], refs[0]) + rest == rest;
    }
  }
}
