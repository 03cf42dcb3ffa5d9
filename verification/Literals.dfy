/** Quoted text, as the lexer and the comment mask both read it. */
module Literals {
  /** How much of t, behind an opening mark q, belongs to the literal; doubled marks do not close it. */
  function LiteralEnd(t: string, q: char): (n: nat)
    ensures n <= |t|
    decreases |t|
  {
    if t == [] then 0
    else if t[0] != q then 1 + LiteralEnd(t[1..], q)
    else if |t| > 1 && t[1] == q then 2 + LiteralEnd(t[2..], q)
    else 1
  }

  predicate LiteralCloses(t: string, q: char)
    decreases |t|
  {
    if t == [] then false
    else if t[0] != q then LiteralCloses(t[1..], q)
    else if |t| > 1 && t[1] == q then LiteralCloses(t[2..], q)
    else true
  }

  function Marks(t: string, q: char): nat {
    if t == [] then 0 else (if t[0] == q then 1 else 0) + Marks(t[1..], q)
  }

  /** The mark at p has no other behind it, and up to it there is an odd number of them. */
  predicate Closes(t: string, q: char, p: nat) {
    p < |t| && t[p] == q && (p + 1 == |t| || t[p + 1] != q) && Marks(t[..p + 1], q) % 2 == 1
  }

  lemma {:induction false} ClosesBehind(t: string, q: char, p: nat)
    requires t != [] && (t[0] != q || (|t| > 1 && t[1] == q))
    ensures var n := if t[0] == q then 2 else 1;
      Closes(t, q, p) <==> p >= n && Closes(t[n..], q, p - n)
  {
    if 0 < p < |t| {
      assert t[..p + 1][1..] == t[1..p + 1] && t[1..][..p] == t[1..p + 1];
      assert Marks(t[..p + 1], q) == (if t[0] == q then 1 else 0) + Marks(t[1..p + 1], q);
      if t[0] == q {
        assert t[1..p + 1][0] == t[1] && t[1..p + 1][1..] == t[2..p + 1] && t[2..][..p - 1] == t[2..p + 1];
        assert Marks(t[1..p + 1], q) == 1 + Marks(t[2..p + 1], q);
        assert p == 1 ==> t[2..p + 1] == [];
      }
    }
  }

  /** A literal ends behind the first mark that closes it, or with the text if there is none. */
  lemma {:induction false} LiteralEndsFirst(t: string, q: char)
    ensures var n := LiteralEnd(t, q);
      && (if LiteralCloses(t, q) then n > 0 && Closes(t, q, n - 1) else n == |t|)
      && forall p: nat | Closes(t, q, p) :: LiteralCloses(t, q) && n - 1 <= p
    decreases |t|
  {
    hide Closes;
    if t != [] && (t[0] != q || (|t| > 1 && t[1] == q)) {
      var n := if t[0] == q then 2 else 1;
      LiteralEndsFirst(t[n..], q);
      forall p: nat ensures Closes(t, q, p) <==> p >= n && Closes(t[n..], q, p - n) {
        ClosesBehind(t, q, p);
      }
    } else {
      ClosesHere(t, q);
    }
  }

  lemma {:induction false} ClosesHere(t: string, q: char)
    requires t == [] || (t[0] == q && (|t| == 1 || t[1] != q))
    ensures Closes(t, q, 0) <==> t != []
    ensures t == [] ==> forall p: nat :: !Closes(t, q, p)
  {
    if t != [] {
      assert t[..1] == [q] && [q][1..] == [];
      assert Marks([q], q) == 1 + Marks([], q);
    }
  }
}
