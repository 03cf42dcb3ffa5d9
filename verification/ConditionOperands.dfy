/** Where an operand of a condition ends and what is read as a group, by the positions of the tokens. */
module ConditionOperands {
  import opened Basics
  import opened BooleanParser

  /** How many more parentheses open than close in s. */
  function Nesting(s: seq<Token>): int {
    if s == [] then 0
    else
      var last := s[|s| - 1];
      Nesting(s[..|s| - 1]) + (if Opens(last) then 1 else if Closes(last) then -1 else 0)
  }

  /** The word at position k stands outside all parentheses. */
  predicate AtTop(s: seq<Token>, k: nat, word: string) {
    k < |s| && Nesting(s[..k]) == 0 && s[k].upper == word
  }

  /** Some BETWEEN outside parentheses has no AND behind it in s. */
  ghost predicate Waits(s: seq<Token>) {
    exists j: nat :: AtTop(s, j, "BETWEEN") && forall i | j < i < |s| :: !AtTop(s, i, "AND")
  }

  /** The token at k ends an operand: a closing parenthesis too many, an OR outside parentheses, or such an AND
      for which no BETWEEN waits. */
  ghost predicate EndsAt(s: seq<Token>, k: nat) {
    && k < |s| && Nesting(s[..k]) == 0
    && (Closes(s[k]) || s[k].upper == "OR" || (s[k].upper == "AND" && !Waits(s[..k])))
  }

  /** Nothing ends an operand in front of the end of s. */
  ghost predicate GoesOn(s: seq<Token>) {
    forall k: nat :: !EndsAt(s, k)
  }

  lemma {:induction false} TopPrefix(s: seq<Token>, n: nat, k: nat, word: string)
    requires k < n <= |s|
    ensures AtTop(s[..n], k, word) <==> AtTop(s, k, word)
  {
    assert s[..n][..k] == s[..k];
  }

  lemma {:induction false} EndsPrefix(s: seq<Token>, n: nat, k: nat)
    requires k < n <= |s|
    ensures EndsAt(s[..n], k) <==> EndsAt(s, k)
  {
    assert s[..n][..k] == s[..k];
  }

  lemma {:induction false} WaitsNext(s: seq<Token>, n: nat)
    requires n < |s|
    ensures Waits(s[..n + 1]) <==> AtTop(s, n, "BETWEEN") || (Waits(s[..n]) && !AtTop(s, n, "AND"))
  {
    hide AtTop;
    var now, was := s[..n + 1], s[..n];
    forall k: nat, word | k < n ensures AtTop(now, k, word) == AtTop(s, k, word) == AtTop(was, k, word) {
      TopPrefix(s, n, k, word);
      TopPrefix(s, n + 1, k, word);
    }
    forall word ensures AtTop(now, n, word) == AtTop(s, n, word) {
      TopPrefix(s, n + 1, n, word);
    }
    forall k: nat, word ensures AtTop(now, k, word) ==> k <= n {
      TopStands(now, k, word);
    }
    forall k: nat, word ensures AtTop(was, k, word) ==> k < n {
      TopStands(was, k, word);
    }
    if AtTop(s, n, "BETWEEN") {
      assert AtTop(now, n, "BETWEEN");
    }
    if Waits(was) && !AtTop(s, n, "AND") {
      var j: nat :| AtTop(was, j, "BETWEEN") && forall i | j < i < |was| :: !AtTop(was, i, "AND");
      assert AtTop(now, j, "BETWEEN");
    }
    if Waits(now) {
      var j: nat :| AtTop(now, j, "BETWEEN") && forall i | j < i < |now| :: !AtTop(now, i, "AND");
      if j < n {
        assert AtTop(was, j, "BETWEEN");
      }
    }
  }

  lemma {:induction false} TopStands(s: seq<Token>, k: nat, word: string)
    ensures AtTop(s, k, word) ==> k < |s|
  {
  }

  lemma {:induction false} GoesOnNext(s: seq<Token>, n: nat)
    requires n < |s|
    ensures GoesOn(s[..n + 1]) <==> GoesOn(s[..n]) && !EndsAt(s, n)
  {
    hide EndsAt;
    var now, was := s[..n + 1], s[..n];
    EndsPrefix(s, n + 1, n);
    forall k: nat ensures EndsAt(now, k) <==> EndsAt(was, k) || (k == n && EndsAt(s, n)) {
      if k < n {
        EndsPrefix(s, n, k);
        EndsPrefix(s, n + 1, k);
      }
      EndStands(was, k);
      EndStands(now, k);
    }
  }

  lemma {:induction false} EndStands(s: seq<Token>, k: nat)
    ensures EndsAt(s, k) ==> k < |s|
  {
  }

  lemma {:induction false} ScanMore(s: seq<Token>, t: Token, state: AtomState)
    ensures ScanAtom(s + [t], state) == match ScanAtom(s, state) case None => None case Some(next) => NextState(t, next)
    decreases |s|
  {
    hide NextState;
    if s == [] {
      assert s + [t] == [t] && [t][1..] == [];
      match NextState(t, state)
      case None =>
      case Some(next) =>
        assert ScanAtom([], next) == Some(next);
    } else {
      assert (s + [t])[0] == s[0] && (s + [t])[1..] == s[1..] + [t];
      match NextState(s[0], state)
      case None =>
      case Some(next) => ScanMore(s[1..], t, next);
    }
  }

  /** The scan of an operand has the nesting and the BETWEEN that waits, as long as nothing ends it. */
  lemma {:induction false} ScanIs(s: seq<Token>)
    ensures ScanAtom(s, (0, false)) != None <==> GoesOn(s)
    ensures GoesOn(s) ==> Nesting(s) >= 0 && ScanAtom(s, (0, false)) == Some((Nesting(s) as nat, Waits(s)))
    decreases |s|
  {
    hide GoesOn, Waits, ScanAtom, EndsAt;
    if s == [] {
      NothingScans();
    } else {
      var n: nat := |s| - 1;
      ScanIs(s[..n]);
      ScanMore(s[..n], s[n], (0, false));
      assert s[..n] + [s[n]] == s && s[..n + 1] == s;
      WaitsNext(s, n);
      GoesOnNext(s, n);
      WordsDiffer();
      BetweenDiffers();
      EndsHere(s, n);
    }
  }

  lemma {:induction false} EndsHere(s: seq<Token>, n: nat)
    requires n < |s|
    ensures EndsAt(s, n) <==>
      Nesting(s[..n]) == 0 && (Closes(s[n]) || s[n].upper == "OR" || (s[n].upper == "AND" && !Waits(s[..n])))
  {
  }

  lemma {:induction false} NothingScans()
    ensures ScanAtom([], (0, false)) == Some((0, false)) && GoesOn([]) && !Waits([]) && Nesting([]) == 0
  {
  }

  lemma {:induction false} BetweenDiffers()
    ensures "BETWEEN" != "AND" && "BETWEEN" != "OR"
    ensures forall t: Token | Opens(t) || Closes(t) :: t.upper != "BETWEEN"
  {
    assert "BETWEEN"[0] == 'B' && "AND"[0] == 'A' && "OR"[0] == 'O' && "("[0] == '(' && ")"[0] == ')';
  }

  lemma {:induction false} GroupClosesFrom(s: seq<Token>, n: nat)
    requires 0 < n <= |s| && Nesting(s[..n]) > 0
    ensures n + GroupLength(s[n..], Nesting(s[..n])) < |s| <==> exists k | n < k < |s| :: FirstClosed(s, n, k)
    decreases |s| - n
  {
    hide FirstClosed;
    if n < |s| {
      var m := n + 1;
      assert s[n..][0] == s[n] && s[n..][1..] == s[m..];
      assert s[..m][..n] == s[..n] && s[..m][n] == s[n];
      var depth := Nesting(s[..m]);
      assert depth == Nesting(s[..n]) + (if Opens(s[n]) then 1 else if Closes(s[n]) then -1 else 0);
      assert GroupLength(s[n..], Nesting(s[..n])) == 1 + if depth > 0 then GroupLength(s[m..], depth) else 0;
      hide Nesting, GroupLength;
      if depth > 0 {
        GroupClosesFrom(s, m);
      }
      forall k | n < k < |s| ensures FirstClosed(s, n, k) <==> if k == m then depth == 0 else depth > 0 && FirstClosed(s, m, k) {
        ClosedNext(s, n, k);
      }
      if depth == 0 && m < |s| {
        assert FirstClosed(s, n, m);
      }
      if k :| m < k < |s| && depth > 0 && FirstClosed(s, m, k) {
        assert FirstClosed(s, n, k);
      }
    }
  }

  lemma {:induction false} ClosedNext(s: seq<Token>, n: nat, k: nat)
    requires n < k < |s|
    ensures var m, depth := n + 1, Nesting(s[..n + 1]);
      FirstClosed(s, n, k) <==> if k == m then depth == 0 else depth > 0 && FirstClosed(s, m, k)
  {
    hide Nesting;
  }

  /** Between n and k some parenthesis stays open, and at k none is. */
  ghost predicate FirstClosed(s: seq<Token>, n: nat, k: nat)
    requires k <= |s|
  {
    Nesting(s[..k]) == 0 && forall i | n < i < k :: Nesting(s[..i]) > 0
  }

  /** The parenthesis at the front closes, and something stands behind it. */
  ghost predicate GroupEndsEarly(s: seq<Token>) {
    exists k | 0 < k < |s| :: FirstClosed(s, 0, k)
  }

  lemma {:induction false} GroupCloses(s: seq<Token>)
    requires s != [] && Opens(s[0])
    ensures GroupLength(s, 0) < |s| <==> GroupEndsEarly(s)
  {
    assert s[..1] == [s[0]] && [s[0]][..0] == [] && Nesting([]) == 0;
    assert Nesting(s[..1]) == 1;
    GroupClosesFrom(s, 1);
    forall k | 0 < k < |s| ensures FirstClosed(s, 0, k) <==> 1 < k && FirstClosed(s, 1, k) {
    }
  }

  /** The atoms of the parser's laws are the lists that nothing ends, with as many parentheses closed as opened and an
      AND for every BETWEEN, that do not begin with NOT and are more than a parenthesised text. */
  lemma {:induction false} AtomIs(s: seq<Token>)
    ensures IsAtom(s) <==>
      && s != [] && s[0].upper != "NOT" && GoesOn(s) && Nesting(s) == 0 && !Waits(s)
      && (Opens(s[0]) ==> GroupEndsEarly(s))
  {
    hide GoesOn, Waits, ScanAtom, GroupLength, GroupEndsEarly;
    ScanIs(s);
    if s != [] && Opens(s[0]) {
      GroupCloses(s);
    }
  }

  lemma {:induction false} LengthScans(s: seq<Token>, state: AtomState)
    ensures var n := AtomLength(s, state);
      ScanAtom(s[..n], state) != None && (n < |s| ==> ScanAtom(s[..n + 1], state) == None)
  {
    hide NextState;
    if s != [] {
      match NextState(s[0], state)
      case None => assert s[..1] == [s[0]];
      case Some(next) =>
        LengthScans(s[1..], next);
        var n := AtomLength(s[1..], next);
        assert s[..n + 1][0] == s[0] && s[..n + 1][1..] == s[1..][..n];
        assert n + 1 < |s| ==> s[..n + 2][0] == s[0] && s[..n + 2][1..] == s[1..][..n + 1];
    }
  }

  /** An operand ends in front of the first token that ends it, or with the text. */
  lemma {:induction false} OperandEndsFirst(s: seq<Token>)
    ensures var n := AtomLength(s, (0, false));
      (n == |s| || EndsAt(s, n)) && forall k: nat | k < n :: !EndsAt(s, k)
  {
    hide EndsAt, AtomLength, ScanAtom;
    var n := AtomLength(s, (0, false));
    LengthScans(s, (0, false));
    ScanIs(s[..n]);
    forall k: nat | k < n ensures !EndsAt(s, k) {
      EndsPrefix(s, n, k);
    }
    if n < |s| {
      ScanIs(s[..n + 1]);
      GoesOnNext(s, n);
    }
  }

  // ----- groups -----

  /** At k, directly inside the first parenthesis, stands what makes it a group: the parenthesis that closes
      it, or an AND or OR. */
  predicate MakesGroup(s: seq<Token>, k: nat) {
    0 < k < |s| && Nesting(s[..k]) == 1 && (Closes(s[k]) || s[k].upper == "AND" || s[k].upper == "OR")
  }

  lemma {:induction false} GroupFrom(s: seq<Token>, n: nat)
    requires 0 < n <= |s| && Nesting(s[..n]) > 0 && forall k: nat | k < n :: !MakesGroup(s, k)
    ensures IsBooleanGroup(s[n..], Nesting(s[..n])) <==> exists k: nat :: MakesGroup(s, k)
    decreases |s| - n
  {
    hide MakesGroup;
    if n == |s| {
      forall k: nat ensures !MakesGroup(s, k) {
        GroupStands(s, k);
      }
    } else {
      assert s[n..][0] == s[n] && s[n..][1..] == s[n + 1..];
      assert s[..n + 1][..n] == s[..n] && s[..n + 1][n] == s[n];
      WordsDiffer();
      GroupAt(s, n);
      if !MakesGroup(s, n) {
        GroupFrom(s, n + 1);
      }
    }
  }

  lemma {:induction false} GroupStands(s: seq<Token>, k: nat)
    ensures MakesGroup(s, k) ==> k < |s|
  {
  }

  lemma {:induction false} GroupAt(s: seq<Token>, k: nat)
    requires 0 < k < |s|
    ensures MakesGroup(s, k) <==> Nesting(s[..k]) == 1 && (Closes(s[k]) || s[k].upper == "AND" || s[k].upper == "OR")
  {
  }

  /** A parenthesis is read as a group iff it closes, or an AND or OR stands directly inside it. */
  lemma {:induction false} GroupIs(s: seq<Token>)
    requires s != [] && Opens(s[0])
    ensures IsBooleanGroup(s, 0) <==> exists k: nat :: MakesGroup(s, k)
  {
    assert s[..1] == [s[0]] && [s[0]][..0] == [] && Nesting([]) == 0;
    assert Nesting(s[..1]) == 1;
    forall k: nat | k < 1 ensures !MakesGroup(s, k) {
    }
    GroupFrom(s, 1);
  }
}
