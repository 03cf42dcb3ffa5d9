/** The lexical scanner for Db2 source text: tokens with their places, nothing lost.

    The reference splits a text into pieces, one after the other; tokens are the pieces that are
    neither blanks nor comments, and their places follow from the text before them.

    A literal or a comment that never closes runs to the end of the text, and is reported. */
module Lexer {
  import opened Literals

  datatype TokenKind = WORD | STRING | QUOTED_IDENTIFIER | NUMBER | SYMBOL

  datatype Token = Token(kind: TokenKind, value: string, line: nat, column: nat, offset: nat)

  datatype LexResult = LexResult(tokens: seq<Token>, codeLines: set<nat>, openString: bool, openComment: bool)

  /** The character classes of the host language. */
  datatype Alphabet = Alphabet(isSpace: char -> bool, isAlpha: char -> bool, isAlnum: char -> bool, isDigit: char -> bool)

  // ----- pieces of text -----

  datatype Piece = Blank | LineComment | BlockComment | Lexeme(kind: TokenKind)

  predicate IsPair(t: string, a: char, b: char) {
    |t| > 1 && t[0] == a && t[1] == b
  }

  predicate StartsWord(a: Alphabet, c: char) {
    a.isAlpha(c) || c in "_#$@"
  }

  predicate ContinuesWord(a: Alphabet, c: char) {
    a.isAlnum(c) || c in "_#$@"
  }

  predicate ContinuesNumber(a: Alphabet, c: char) {
    a.isDigit(c) || c in ".Ee+-"
  }

  predicate IsTwoCharSymbol(t: string) {
    IsPair(t, '<', '=') || IsPair(t, '>', '=') || IsPair(t, '<', '>') || IsPair(t, '!', '=')
    || IsPair(t, '|', '|') || IsPair(t, ':', '=') || IsPair(t, '=', '>')
  }

  /** How many leading characters of t satisfy p. */
  function Run(t: string, p: char -> bool): (n: nat)
    ensures n <= |t| && (n < |t| ==> !p(t[n])) && forall i | 0 <= i < n :: p(t[i])
  {
    if t == [] || !p(t[0]) then 0 else 1 + Run(t[1..], p)
  }

  /** How much of t, behind depth opening marks, belongs to the nested comment. */
  function CommentEnd(t: string, depth: nat): (n: nat)
    ensures n <= |t|
    decreases |t|
  {
    if t == [] || depth == 0 then 0
    else if IsPair(t, '/', '*') then 2 + CommentEnd(t[2..], depth + 1)
    else if IsPair(t, '*', '/') then 2 + CommentEnd(t[2..], depth - 1)
    else 1 + CommentEnd(t[1..], depth)
  }

  predicate CommentCloses(t: string, depth: nat)
    decreases |t|
  {
    if depth == 0 then true
    else if t == [] then false
    else if IsPair(t, '/', '*') then CommentCloses(t[2..], depth + 1)
    else if IsPair(t, '*', '/') then CommentCloses(t[2..], depth - 1)
    else CommentCloses(t[1..], depth)
  }

  /** The first piece of a text and its length. */
  function First(a: Alphabet, t: string): (r: (Piece, nat))
    requires t != []
    ensures 0 < r.1 <= |t|
  {
    var c := t[0];
    if a.isSpace(c) then (Blank, 1)
    else if IsPair(t, '-', '-') then (LineComment, 2 + Run(t[2..], (d: char) => d != '\n'))
    else if IsPair(t, '/', '*') then (BlockComment, 2 + CommentEnd(t[2..], 1))
    else if c == '\'' then (Lexeme(STRING), 1 + LiteralEnd(t[1..], c))
    else if c == '"' then (Lexeme(QUOTED_IDENTIFIER), 1 + LiteralEnd(t[1..], c))
    else if StartsWord(a, c) then (Lexeme(WORD), 1 + Run(t[1..], (d: char) => ContinuesWord(a, d)))
    else if a.isDigit(c) then (Lexeme(NUMBER), 1 + Run(t[1..], (d: char) => ContinuesNumber(a, d)))
    else if IsTwoCharSymbol(t) then (Lexeme(SYMBOL), 2)
    else (Lexeme(SYMBOL), 1)
  }

  // ----- places -----

  /** The line of the place behind s. */
  function LineBehind(s: string): nat {
    if s == [] then 1 else LineBehind(s[..|s| - 1]) + if s[|s| - 1] == '\n' then 1 else 0
  }

  /** The column of the place behind s: one more than the characters since the last line break. */
  function ColumnBehind(s: string): (col: nat)
    ensures 1 <= col <= |s| + 1
    ensures forall k | |s| - (col - 1) <= k < |s| :: s[k] != '\n'
    ensures col <= |s| ==> s[|s| - col] == '\n'
  {
    if s == [] || s[|s| - 1] == '\n' then 1 else ColumnBehind(s[..|s| - 1]) + 1
  }

  // ----- tokens -----

  /** The tokens of t from position i. */
  function TokensFrom(a: Alphabet, t: string, i: nat): seq<Token>
    requires i <= |t|
    decreases |t| - i
  {
    if i == |t| then []
    else
      var (piece, n) := First(a, t[i..]);
      TokenAt(t, piece, i, n) + TokensFrom(a, t, i + n)
  }

  function TokenAt(t: string, piece: Piece, i: nat, n: nat): seq<Token>
    requires i + n <= |t|
  {
    if piece.Lexeme? then [Token(piece.kind, t[i..i + n], LineBehind(t[..i]), ColumnBehind(t[..i]), i)] else []
  }

  /** The lines on which tokens, or comments that never close, begin. */
  function LinesFrom(a: Alphabet, t: string, i: nat): set<nat>
    requires i <= |t|
    decreases |t| - i
  {
    if i == |t| then {}
    else
      var (piece, n) := First(a, t[i..]);
      (if piece.Lexeme? || OpenComment(piece, t[i..]) then {LineBehind(t[..i])} else {}) + LinesFrom(a, t, i + n)
  }

  predicate OpenComment(piece: Piece, t: string) {
    piece == BlockComment && |t| >= 2 && !CommentCloses(t[2..], 1)
  }

  predicate OpenLiteral(piece: Piece, t: string) {
    (piece == Lexeme(STRING) || piece == Lexeme(QUOTED_IDENTIFIER)) && t != [] && !LiteralCloses(t[1..], t[0])
  }

  predicate SomeOpenComment(a: Alphabet, t: string, i: nat)
    requires i <= |t|
    decreases |t| - i
  {
    i < |t| && (OpenComment(First(a, t[i..]).0, t[i..]) || SomeOpenComment(a, t, i + First(a, t[i..]).1))
  }

  predicate SomeOpenLiteral(a: Alphabet, t: string, i: nat)
    requires i <= |t|
    decreases |t| - i
  {
    i < |t| && (OpenLiteral(First(a, t[i..]).0, t[i..]) || SomeOpenLiteral(a, t, i + First(a, t[i..]).1))
  }

  // ----- nothing is lost -----

  /** t[i..j] is one blank or one whole comment. */
  ghost predicate IsGap(a: Alphabet, t: string, i: nat, j: nat)
    requires i < j <= |t|
  {
    || (j == i + 1 && a.isSpace(t[i]))
    || (IsPair(t[i..], '-', '-') && i + 2 <= j && '\n' !in t[i..j] && (j == |t| || t[j] == '\n'))
    || (IsPair(t[i..], '/', '*') && j == i + 2 + CommentEnd(t[i + 2..], 1))
  }

  /** t[i..j] is made of blanks and comments. */
  ghost predicate IsTrivia(a: Alphabet, t: string, i: nat, j: nat)
    requires i <= j <= |t|
    decreases j - i
  {
    i == j || exists k :: i < k <= j && IsGap(a, t, i, k) && IsTrivia(a, t, k, j)
  }

  function Finish(w: Token): nat {
    w.offset + |w.value|
  }

  /** Each token stands in t where it says, and between i and the first token, between tokens,
      and behind the last there are only blanks and comments. */
  ghost predicate Tiles(a: Alphabet, t: string, ws: seq<Token>, i: nat)
    requires i <= |t|
    decreases |ws|
  {
    if ws == [] then IsTrivia(a, t, i, |t|)
    else
      var w := ws[0];
      && i <= w.offset < Finish(w) <= |t| && IsTrivia(a, t, i, w.offset)
      && w.value == t[w.offset..Finish(w)]
      && w.line == LineBehind(t[..w.offset]) && w.column == ColumnBehind(t[..w.offset])
      && Tiles(a, t, ws[1..], Finish(w))
  }

  lemma {:induction false} FirstIsGap(a: Alphabet, t: string, i: nat)
    requires i < |t| && !First(a, t[i..]).0.Lexeme?
    ensures IsGap(a, t, i, i + First(a, t[i..]).1)
  {
    var (piece, n) := First(a, t[i..]);
    if piece == LineComment {
      var s := t[i..];
      assert s[2..] == t[i + 2..];
      forall k | i <= k < i + n ensures t[k] != '\n' {
        assert t[k] == s[k - i];
        assert k >= i + 2 ==> t[k] == s[2..][k - i - 2];
      }
      assert i + n < |t| ==> t[i + n] == s[2..][n - 2];
    } else if piece == BlockComment {
      assert t[i..][2..] == t[i + 2..];
    }
  }

  lemma {:induction false} GapBefore(a: Alphabet, t: string, ws: seq<Token>, i: nat, k: nat)
    requires i < k <= |t| && IsGap(a, t, i, k) && Tiles(a, t, ws, k)
    ensures Tiles(a, t, ws, i)
  {
    hide IsGap;
    if ws == [] {
      assert IsTrivia(a, t, i, |t|);
    } else {
      assert IsTrivia(a, t, i, ws[0].offset);
    }
  }

  lemma {:induction false} NoTokenAt(t: string, piece: Piece, i: nat, n: nat)
    requires i + n <= |t| && !piece.Lexeme?
    ensures TokenAt(t, piece, i, n) == []
  {
  }

  lemma {:induction false} NothingTiles(a: Alphabet, t: string)
    ensures Tiles(a, t, [], |t|)
  {
  }

  lemma {:induction false} TokenBefore(a: Alphabet, t: string, piece: Piece, ws: seq<Token>, i: nat, n: nat)
    requires 0 < n && i + n <= |t| && piece.Lexeme? && Tiles(a, t, ws, i + n)
    ensures Tiles(a, t, TokenAt(t, piece, i, n) + ws, i)
  {
    hide LineBehind, ColumnBehind;
    var all := TokenAt(t, piece, i, n) + ws;
    assert all[1..] == ws && |all[0].value| == n;
    assert IsTrivia(a, t, i, i);
  }

  /** The tokens tile the text. */
  lemma {:induction false} TokensTile(a: Alphabet, t: string, i: nat)
    requires i <= |t|
    ensures Tiles(a, t, TokensFrom(a, t, i), i)
    decreases |t| - i
  {
    hide First, IsGap, Tiles, IsTrivia, TokenAt;
    if i == |t| {
      NothingTiles(a, t);
    } else {
      var (piece, n) := First(a, t[i..]);
      TokensTile(a, t, i + n);
      if piece.Lexeme? {
        TokenBefore(a, t, piece, TokensFrom(a, t, i + n), i, n);
      } else {
        FirstIsGap(a, t, i);
        NoTokenAt(t, piece, i, n);
        assert [] + TokensFrom(a, t, i + n) == TokensFrom(a, t, i + n);
        GapBefore(a, t, TokensFrom(a, t, i), i, i + n);
      }
    }
  }

  /** Tokens come in the order of the text and do not overlap. */
  lemma {:induction false} TilesDoNotOverlap(a: Alphabet, t: string, ws: seq<Token>, i: nat, k: nat, m: nat)
    requires i <= |t| && Tiles(a, t, ws, i) && k < m < |ws|
    ensures i <= ws[k].offset < Finish(ws[k]) <= ws[m].offset < |t|
    decreases |ws|
  {
    hide IsTrivia, LineBehind, ColumnBehind;
    var w, rest := ws[0], ws[1..];
    if k > 0 {
      TilesDoNotOverlap(a, t, rest, Finish(w), k - 1, m - 1);
    } else if m > 1 {
      TilesDoNotOverlap(a, t, rest, Finish(w), 0, m - 1);
    }
  }

  // ----- what a token is -----

  /** All of t[i..j] behind the first character satisfies p, and what follows does not. */
  ghost predicate IsLongest(t: string, i: nat, j: nat, p: char -> bool)
    requires i < j <= |t|
  {
    (forall k | i < k < j :: p(t[k])) && (j < |t| ==> !p(t[j]))
  }

  /** The literal whose mark stands at i ends in front of j: behind the first mark that closes it, or
      with the text if none does. */
  ghost predicate IsLiteral(t: string, i: nat, j: nat)
    requires i < j <= |t|
  {
    var rest := t[i + 1..];
    && (j == |t| || (j >= i + 2 && Closes(rest, t[i], j - i - 2)))
    && forall p: nat | Closes(rest, t[i], p) :: j - i - 2 <= p
  }

  /** t[i..j] is one token of the given kind: the first character tells the kind, a word or a number is
      the longest run, and a symbol has two characters exactly where they form one of the seven. */
  ghost predicate IsToken(a: Alphabet, t: string, i: nat, j: nat, kind: TokenKind)
    requires i < j <= |t|
  {
    var c, pair := t[i], if i + 1 < |t| then t[i..i + 2] else [];
    && !a.isSpace(c) && pair != "--" && pair != "/*"
    && match kind
       case STRING => c == '\'' && IsLiteral(t, i, j)
       case QUOTED_IDENTIFIER => c == '"' && IsLiteral(t, i, j)
       case WORD =>
         c != '\'' && c != '"' && (a.isAlpha(c) || c in "_#$@") && IsLongest(t, i, j, d => a.isAlnum(d) || d in "_#$@")
       case NUMBER =>
         c != '\'' && c != '"' && !a.isAlpha(c) && c !in "_#$@" && a.isDigit(c)
         && IsLongest(t, i, j, d => a.isDigit(d) || d in ".Ee+-")
       case SYMBOL =>
         c != '\'' && c != '"' && !a.isAlpha(c) && c !in "_#$@" && !a.isDigit(c)
         && j == i + if pair in {"<=", ">=", "<>", "!=", "||", ":=", "=>"} then 2 else 1
  }

  lemma {:induction false} PairIs(t: string, x: char, y: char)
    ensures IsPair(t, x, y) <==> |t| > 1 && t[..2] == [x, y]
  {
  }

  lemma {:induction false} SymbolIs(t: string)
    ensures IsTwoCharSymbol(t) <==> |t| > 1 && t[..2] in {"<=", ">=", "<>", "!=", "||", ":=", "=>"}
  {
    hide IsPair;
    PairIs(t, '<', '=');
    PairIs(t, '>', '=');
    PairIs(t, '<', '>');
    PairIs(t, '!', '=');
    PairIs(t, '|', '|');
    PairIs(t, ':', '=');
    PairIs(t, '=', '>');
    assert "<=" == ['<', '='] && ">=" == ['>', '='] && "<>" == ['<', '>'] && "!=" == ['!', '='] && "||" == ['|', '|'];
    assert ":=" == [':', '='] && "=>" == ['=', '>'];
  }

  lemma {:induction false} RunIsLongest(t: string, i: nat, p: char -> bool)
    requires i < |t|
    ensures IsLongest(t, i, i + 1 + Run(t[i + 1..], p), p)
  {
    var rest := t[i + 1..];
    assert forall k | i < k < |t| :: t[k] == rest[k - i - 1];
  }

  lemma {:induction false} LiteralIs(t: string, i: nat)
    requires i < |t|
    ensures IsLiteral(t, i, i + 1 + LiteralEnd(t[i + 1..], t[i]))
  {
    hide Closes;
    LiteralEndsFirst(t[i + 1..], t[i]);
  }

  lemma {:induction false} FirstIsToken(a: Alphabet, t: string, i: nat)
    requires i < |t| && First(a, t[i..]).0.Lexeme?
    ensures var (piece, n) := First(a, t[i..]); IsToken(a, t, i, i + n, piece.kind)
  {
    hide Run, LiteralEnd, IsLiteral, IsTwoCharSymbol, IsPair, IsLongest;
    var rest, c := t[i..], t[i];
    assert rest[1..] == t[i + 1..];
    PairIs(rest, '-', '-');
    PairIs(rest, '/', '*');
    SymbolIs(rest);
    LiteralIs(t, i);
    RunIsLongest(t, i, (d: char) => ContinuesWord(a, d));
    RunIsLongest(t, i, (d: char) => ContinuesNumber(a, d));
    assert i + 1 < |t| ==> rest[..2] == t[i..i + 2];
    match First(a, rest).0.kind
    case WORD =>
      SameLongest(t, i, i + First(a, rest).1, (d: char) => ContinuesWord(a, d), d => a.isAlnum(d) || d in "_#$@");
    case NUMBER =>
      SameLongest(t, i, i + First(a, rest).1, (d: char) => ContinuesNumber(a, d), d => a.isDigit(d) || d in ".Ee+-");
    case _ =>
  }

  lemma {:induction false} SameLongest(t: string, i: nat, j: nat, p: char -> bool, q: char -> bool)
    requires i < j <= |t| && IsLongest(t, i, j, p) && forall d :: p(d) == q(d)
    ensures IsLongest(t, i, j, q)
  {
  }

  /** Every token is as long as its kind allows, and of the kind that its first character gives. */
  lemma {:induction false} TokensAreLongest(a: Alphabet, t: string, i: nat, w: Token)
    requires i <= |t| && w in TokensFrom(a, t, i)
    ensures w.offset < Finish(w) <= |t| && IsToken(a, t, w.offset, Finish(w), w.kind)
    decreases |t| - i
  {
    hide First, IsToken, LineBehind, ColumnBehind;
    var (piece, n) := First(a, t[i..]);
    if w in TokensFrom(a, t, i + n) {
      TokensAreLongest(a, t, i + n, w);
    } else {
      FirstIsToken(a, t, i);
    }
  }

  // ----- flags and code lines -----

  /** The literal whose mark stands at i never closes. */
  ghost predicate NeverCloses(t: string, i: nat) {
    i < |t| && var rest := t[i + 1..]; forall p: nat :: !Closes(rest, t[i], p)
  }

  /** Reading on from i, a token, a blank or a comment begins at o. */
  ghost predicate Begins(a: Alphabet, t: string, i: nat, o: nat)
    requires i <= |t|
    decreases |t| - i
  {
    i < |t| && (o == i || Begins(a, t, i + First(a, t[i..]).1, o))
  }

  /** A comment that never closes begins at o. */
  ghost predicate BeginsOpenComment(a: Alphabet, t: string, i: nat, o: nat)
    requires i <= |t|
  {
    && Begins(a, t, i, o) && o + 2 <= |t| && t[o..o + 2] == "/*" && !a.isSpace(t[o])
    && !CommentCloses(t[o + 2..], 1)
  }

  lemma {:induction false} BeginsWithin(a: Alphabet, t: string, i: nat, o: nat)
    requires i <= |t| && Begins(a, t, i, o)
    ensures i <= o < |t|
    decreases |t| - i
  {
    hide First;
    if o != i {
      BeginsWithin(a, t, i + First(a, t[i..]).1, o);
    }
  }

  lemma {:induction false} OpenCommentIs(a: Alphabet, t: string, i: nat)
    requires i < |t|
    ensures OpenComment(First(a, t[i..]).0, t[i..]) <==> BeginsOpenComment(a, t, i, i)
  {
    hide Run, CommentEnd, LiteralEnd, CommentCloses, IsTwoCharSymbol;
    var rest := t[i..];
    PairIs(rest, '/', '*');
    assert |rest| > 1 ==> rest[..2] == t[i..i + 2] && rest[2..] == t[i + 2..];
    assert "/*" == ['/', '*'];
  }

  lemma {:induction false} OpenCommentLater(a: Alphabet, t: string, i: nat, o: nat)
    requires i < |t|
    ensures BeginsOpenComment(a, t, i, o) <==>
      (o == i && BeginsOpenComment(a, t, i, i)) || BeginsOpenComment(a, t, i + First(a, t[i..]).1, o)
  {
    hide First, CommentCloses;
    var j := i + First(a, t[i..]).1;
    if Begins(a, t, j, o) {
      BeginsWithin(a, t, j, o);
    }
  }

  /** The flag for comments is set iff some comment never closes. */
  lemma {:induction false} OpenCommentIsSeen(a: Alphabet, t: string, i: nat)
    requires i <= |t|
    ensures SomeOpenComment(a, t, i) <==> exists o: nat :: BeginsOpenComment(a, t, i, o)
    decreases |t| - i
  {
    hide First, BeginsOpenComment, OpenComment;
    if i < |t| {
      var j := i + First(a, t[i..]).1;
      OpenCommentIsSeen(a, t, j);
      OpenCommentIs(a, t, i);
      forall o: nat
        ensures BeginsOpenComment(a, t, i, o) <==> (o == i && BeginsOpenComment(a, t, i, i)) || BeginsOpenComment(a, t, j, o)
      {
        OpenCommentLater(a, t, i, o);
      }
      if o: nat :| BeginsOpenComment(a, t, j, o) {
        assert BeginsOpenComment(a, t, i, o);
      }
    } else {
      NothingBegins(a, t);
    }
  }

  lemma {:induction false} NothingBegins(a: Alphabet, t: string)
    ensures forall o: nat :: !BeginsOpenComment(a, t, |t|, o)
  {
  }

  predicate IsQuoted(w: Token) {
    w.kind == STRING || w.kind == QUOTED_IDENTIFIER
  }

  lemma {:induction false} OpenLiteralAt(a: Alphabet, t: string, i: nat)
    requires i < |t|
    ensures var (piece, n) := First(a, t[i..]);
      OpenLiteral(piece, t[i..]) <==>
        exists w | w in TokenAt(t, piece, i, n) :: IsQuoted(w) && NeverCloses(t, w.offset)
  {
    hide First, LineBehind, ColumnBehind, Closes;
    var (piece, n) := First(a, t[i..]);
    assert t[i..][0] == t[i] && t[i..][1..] == t[i + 1..];
    LiteralEndsFirst(t[i + 1..], t[i]);
    if piece.Lexeme? {
      var w := Token(piece.kind, t[i..i + n], LineBehind(t[..i]), ColumnBehind(t[..i]), i);
      assert w in TokenAt(t, piece, i, n);
    }
  }

  /** The flag for literals is set iff some quoted token never closes. */
  lemma {:induction false} OpenLiteralIsSeen(a: Alphabet, t: string, i: nat)
    requires i <= |t|
    ensures SomeOpenLiteral(a, t, i) <==> exists w | w in TokensFrom(a, t, i) :: IsQuoted(w) && NeverCloses(t, w.offset)
    decreases |t| - i
  {
    hide First, OpenLiteral, NeverCloses, TokenAt;
    if i < |t| {
      var (piece, n) := First(a, t[i..]);
      OpenLiteralIsSeen(a, t, i + n);
      OpenLiteralAt(a, t, i);
      assert forall w :: w in TokensFrom(a, t, i) <==> w in TokenAt(t, piece, i, n) || w in TokensFrom(a, t, i + n);
    }
  }

  /** The code lines are those on which a token begins, or a comment that never closes. */
  lemma {:induction false} CodeLinesAre(a: Alphabet, t: string, i: nat, line: nat)
    requires i <= |t|
    ensures line in LinesFrom(a, t, i) <==>
      || (exists w | w in TokensFrom(a, t, i) :: w.line == line)
      || (exists o: nat | BeginsOpenComment(a, t, i, o) :: o <= |t| && line == LineBehind(t[..o]))
    decreases |t| - i
  {
    hide First, BeginsOpenComment, OpenComment, LineBehind, ColumnBehind;
    if i < |t| {
      var (piece, n) := First(a, t[i..]);
      var j := i + n;
      CodeLinesAre(a, t, j, line);
      OpenCommentIs(a, t, i);
      forall o: nat
        ensures BeginsOpenComment(a, t, i, o) <==> (o == i && BeginsOpenComment(a, t, i, i)) || BeginsOpenComment(a, t, j, o)
      {
        OpenCommentLater(a, t, i, o);
      }
      LineOfPiece(t, piece, i, n, line);
      hide TokenAt;
      assert forall w :: w in TokensFrom(a, t, i) <==> w in TokenAt(t, piece, i, n) || w in TokensFrom(a, t, j);
    } else {
      NothingBegins(a, t);
    }
  }

  lemma {:induction false} LineOfPiece(t: string, piece: Piece, i: nat, n: nat, line: nat)
    requires i + n <= |t|
    ensures (exists w | w in TokenAt(t, piece, i, n) :: w.line == line) <==> piece.Lexeme? && line == LineBehind(t[..i])
  {
    hide LineBehind, ColumnBehind;
    if piece.Lexeme? {
      var w := Token(piece.kind, t[i..i + n], LineBehind(t[..i]), ColumnBehind(t[..i]), i);
      assert w in TokenAt(t, piece, i, n);
    }
  }

  // ----- comments nest -----

  datatype Inside = Ch(c: char) | Nested(items: seq<Inside>)

  function Render(x: Inside): string
    decreases x
  {
    match x
    case Ch(c) => [c]
    case Nested(items) => "/*" + RenderAll(items) + "*/"
  }

  function RenderAll(items: seq<Inside>): string
    decreases items
  {
    if items == [] then [] else Render(items[0]) + RenderAll(items[1..])
  }

  /** No character forms a comment mark with what follows it. */
  predicate Clean(items: seq<Inside>, after: string)
    decreases items
  {
    items != [] ==>
      && Clean(items[1..], after)
      && match items[0]
         case Ch(c) =>
           var t := [c] + (RenderAll(items[1..]) + after);
           !IsPair(t, '/', '*') && !IsPair(t, '*', '/')
         case Nested(inner) => Clean(inner, "*/")
  }

  /** The text of a comment leaves the depth as it was. */
  lemma {:induction false} InsideIsSkipped(items: seq<Inside>, after: string, depth: nat)
    requires depth > 0 && Clean(items, after)
    ensures var body := RenderAll(items);
      && CommentEnd(body + after, depth) == |body| + CommentEnd(after, depth)
      && CommentCloses(body + after, depth) == CommentCloses(after, depth)
    decreases items, 0
  {
    hide CommentEnd, CommentCloses;
    if items == [] {
      assert RenderAll(items) + after == after;
    } else {
      var rest := RenderAll(items[1..]) + after;
      InsideIsSkipped(items[1..], after, depth);
      assert RenderAll(items) + after == Render(items[0]) + rest;
      match items[0]
      case Ch(c) =>
        CommentStep([c] + rest, 0, depth);
        assert ([c] + rest)[0..] == [c] + rest && ([c] + rest)[1..] == rest;
      case Nested(inner) =>
        NestedIsSkipped(inner, rest, depth);
    }
  }

  lemma {:induction false} NestedIsSkipped(inner: seq<Inside>, rest: string, depth: nat)
    requires Clean(inner, "*/")
    ensures var t := Render(Nested(inner)) + rest;
      && (depth > 0 ==> CommentEnd(t, depth) == |Render(Nested(inner))| + CommentEnd(rest, depth))
      && (depth > 0 ==> CommentCloses(t, depth) == CommentCloses(rest, depth))
      && CommentEnd(t[2..], 1) == |Render(Nested(inner))| - 2 && CommentCloses(t[2..], 1)
    decreases inner, 1
  {
    hide CommentEnd, CommentCloses, Clean, RenderAll;
    var close := "*/" + rest;
    var t, body := Render(Nested(inner)) + rest, RenderAll(inner) + close;
    assert t == "/*" + body && t[2..] == body && t[0..] == t;
    assert close[2..] == rest && close[0..] == close;
    CleanAnyway(inner, rest);
    InsideIsSkipped(inner, close, depth + 1);
    InsideIsSkipped(inner, close, 1);
    CommentStep(close, 0, depth + 1);
    CommentStep(close, 0, 1);
    CommentAtEnd(rest, 0);
    if depth > 0 {
      CommentStep(t, 0, depth);
    }
  }

  /** Whether the text is clean depends on the mark that follows it, not on what comes later. */
  lemma {:induction false} CleanAnyway(items: seq<Inside>, rest: string)
    requires Clean(items, "*/")
    ensures Clean(items, "*/" + rest)
    decreases items
  {
    if items != [] {
      CleanAnyway(items[1..], rest);
      if items[0].Ch? {
        var u := [items[0].c] + (RenderAll(items[1..]) + "*/");
        var v := [items[0].c] + (RenderAll(items[1..]) + ("*/" + rest));
        assert v == u + rest;
      }
    }
  }

  /** A comment, with comments nested in it to any depth, is one gap in the text. */
  lemma {:induction false} NestedCommentIsOneGap(a: Alphabet, items: seq<Inside>, rest: string)
    requires Clean(items, "*/") && !a.isSpace('/')
    ensures var comment := Render(Nested(items));
      First(a, comment + rest) == (BlockComment, |comment|) && !OpenComment(BlockComment, comment + rest)
  {
    hide CommentEnd, CommentCloses, Clean, RenderAll;
    NestedIsSkipped(items, rest, 0);
  }

  // ----- layout does not matter -----

  datatype Word = Word(kind: TokenKind, value: string)

  /** The tokens of t without their places. */
  function Words(a: Alphabet, t: string): seq<Word>
    decreases |t|
  {
    if t == [] then []
    else
      var (piece, n) := First(a, t);
      (if piece.Lexeme? then [Word(piece.kind, t[..n])] else []) + Words(a, t[n..])
  }

  function WordsOf(ws: seq<Token>): seq<Word> {
    seq(|ws|, i requires 0 <= i < |ws| => Word(ws[i].kind, ws[i].value))
  }

  lemma {:induction false} TokensAreWords(a: Alphabet, t: string, i: nat)
    requires i <= |t|
    ensures WordsOf(TokensFrom(a, t, i)) == Words(a, t[i..])
    decreases |t| - i
  {
    hide First, LineBehind, ColumnBehind;
    if i < |t| {
      var (piece, n) := First(a, t[i..]);
      TokensAreWords(a, t, i + n);
      assert t[i..][n..] == t[i + n..] && t[i..][..n] == t[i..i + n];
    }
  }

  /** The words, with one blank between neighbours. */
  function Join(ws: seq<Word>): string {
    if ws == [] then [] else if |ws| == 1 then ws[0].value else ws[0].value + " " + Join(ws[1..])
  }

  /** A blank is a space and can stand in no word or number. */
  predicate BlankSeparates(a: Alphabet) {
    a.isSpace(' ') && !a.isAlnum(' ') && !a.isDigit(' ')
  }

  lemma {:induction false} RunStops(t: string, n: nat, p: char -> bool, rest: string)
    requires n <= |t| && n <= Run(t, p) && (rest == [] || !p(rest[0]))
    ensures Run(t[..n] + rest, p) == n
  {
    var s := t[..n] + rest;
    assert forall k | 0 <= k < n :: s[k] == t[k];
    assert n < |s| ==> s[n] == rest[0];
  }

  /** Cutting a literal behind its closing mark, or behind all of it, leaves the literal. */
  lemma {:induction false} LiteralStops(t: string, q: char, rest: string)
    requires rest == [] || (LiteralCloses(t, q) && rest[0] != q)
    ensures LiteralEnd(t[..LiteralEnd(t, q)] + rest, q) == LiteralEnd(t, q)
    decreases |t|
  {
    var n := LiteralEnd(t, q);
    var s := t[..n] + rest;
    if t != [] && !(t[0] == q && !(|t| > 1 && t[1] == q)) {
      var k := if t[0] == q then 2 else 1;
      LiteralStops(t[k..], q, rest);
      assert s[k..] == t[k..][..n - k] + rest;
      assert s[0] == t[0] && (k == 2 ==> s[1] == t[1]);
    }
  }

  /** A literal that does not close runs to the end of the text. */
  lemma {:induction false} OpenLiteralIsLast(t: string, q: char)
    requires !LiteralCloses(t, q)
    ensures LiteralEnd(t, q) == |t|
    decreases |t|
  {
    if t != [] {
      OpenLiteralIsLast(t[if t[0] == q then 2 else 1..], q);
    }
  }

  lemma {:induction false} LiteralStandsAlone(a: Alphabet, t: string, rest: string)
    requires t != [] && !a.isSpace(t[0]) && (t[0] == '\'' || t[0] == '"')
    requires rest == [] || (rest[0] == ' ' && 1 + LiteralEnd(t[1..], t[0]) < |t|)
    ensures var n := 1 + LiteralEnd(t[1..], t[0]); LiteralEnd((t[..n] + rest)[1..], t[0]) == n - 1
  {
    var n := 1 + LiteralEnd(t[1..], t[0]);
    if !LiteralCloses(t[1..], t[0]) {
      OpenLiteralIsLast(t[1..], t[0]);
    }
    LiteralStops(t[1..], t[0], rest);
    assert (t[..n] + rest)[1..] == t[1..][..n - 1] + rest;
  }

  lemma {:induction false} RunStandsAlone(t: string, n: nat, p: char -> bool, rest: string)
    requires 0 < n <= |t| && n - 1 == Run(t[1..], p) && (rest == [] || !p(rest[0]))
    ensures Run((t[..n] + rest)[1..], p) == n - 1
  {
    RunStops(t[1..], n - 1, p, rest);
    assert (t[..n] + rest)[1..] == t[1..][..n - 1] + rest;
  }

  /** The first token of a text is still the first token when a blank, or nothing, follows it. */
  lemma {:induction false} FirstStandsAlone(a: Alphabet, t: string, rest: string)
    requires BlankSeparates(a) && t != [] && First(a, t).0.Lexeme?
    requires rest == [] || (rest[0] == ' ' && First(a, t).1 < |t|)
    ensures var (piece, n) := First(a, t); First(a, t[..n] + rest) == (piece, n)
  {
    hide Run, LiteralEnd, CommentEnd, IsTwoCharSymbol, StartsWord, ContinuesWord, ContinuesNumber, IsPair;
    var (piece, n) := First(a, t);
    var s := t[..n] + rest;
    PairStandsAlone(t, n, rest, '-', '-');
    PairStandsAlone(t, n, rest, '/', '*');
    match piece.kind
    case SYMBOL => SymbolStandsAlone(t, n, rest);
    case WORD =>
      SpaceEnds(a);
      RunStandsAlone(t, n, (d: char) => ContinuesWord(a, d), rest);
    case NUMBER =>
      SpaceEnds(a);
      RunStandsAlone(t, n, (d: char) => ContinuesNumber(a, d), rest);
    case _ => LiteralStandsAlone(a, t, rest);
  }

  lemma {:induction false} SpaceEnds(a: Alphabet)
    requires BlankSeparates(a)
    ensures !ContinuesWord(a, ' ') && !ContinuesNumber(a, ' ')
  {
  }

  lemma {:induction false} PairStandsAlone(t: string, n: nat, rest: string, x: char, y: char)
    requires 0 < n <= |t| && (rest == [] || rest[0] == ' ') && !IsPair(t, x, y) && y != ' '
    ensures !IsPair(t[..n] + rest, x, y) && (t[..n] + rest)[0] == t[0]
  {
    var s := t[..n] + rest;
    assert n > 1 ==> s[1] == t[1];
    assert n == 1 && rest != [] ==> s[1] == ' ';
  }

  lemma {:induction false} SymbolStandsAlone(t: string, n: nat, rest: string)
    requires t != [] && n == (if IsTwoCharSymbol(t) then 2 else 1) && (rest == [] || rest[0] == ' ')
    ensures IsTwoCharSymbol(t[..n] + rest) <==> IsTwoCharSymbol(t)
  {
    var s := t[..n] + rest;
    assert s[0] == t[0];
    assert n == 2 ==> s[1] == t[1];
    assert n == 1 && rest != [] ==> s[1] == ' ';
  }

  lemma {:induction false} BlankIsSkipped(a: Alphabet, t: string)
    requires BlankSeparates(a)
    ensures Words(a, " " + t) == Words(a, t)
  {
    var s := " " + t;
    assert First(a, s) == (Blank, 1) && s[1..] == t;
  }

  /** Scanning the tokens again, with one blank between neighbours, yields the same tokens:
      comments and layout carry nothing. */
  lemma {:induction false} LayoutDoesNotMatter(a: Alphabet, t: string)
    requires BlankSeparates(a)
    ensures Words(a, Join(Words(a, t))) == Words(a, t)
    decreases |t|
  {
    hide First, BlankSeparates;
    if t != [] {
      var (piece, n) := First(a, t);
      LayoutDoesNotMatter(a, t[n..]);
      var rest := Words(a, t[n..]);
      if !piece.Lexeme? {
        assert Words(a, t) == rest;
      } else {
        var w := Word(piece.kind, t[..n]);
        assert Words(a, t) == [w] + rest && ([w] + rest)[1..] == rest;
        var tail := if rest == [] then [] else " " + Join(rest);
        assert Join([w] + rest) == w.value + tail;
        FirstStandsAlone(a, t, tail);
        assert (w.value + tail)[..n] == w.value && (w.value + tail)[n..] == tail;
        BlankIsSkipped(a, Join(rest));
      }
    }
  }

  // ----- the scan -----

  datatype Cursor = Cursor(i: nat, line: nat, column: nat)

  /** The cursor stands in t, on the line and in the column that the text before it gives. */
  ghost predicate InPlace(t: string, c: Cursor) {
    c.i <= |t| && c.line == LineBehind(t[..c.i]) && c.column == ColumnBehind(t[..c.i])
  }

  function Advanced(c: Cursor, ch: char): Cursor {
    if ch == '\n' then Cursor(c.i + 1, c.line + 1, 1) else Cursor(c.i + 1, c.line, c.column + 1)
  }

  lemma {:induction false} AdvanceInPlace(t: string, c: Cursor)
    requires InPlace(t, c) && c.i < |t|
    ensures InPlace(t, Advanced(c, t[c.i]))
  {
    var s := t[..c.i + 1];
    assert s[|s| - 1] == t[c.i] && s[..|s| - 1] == t[..c.i];
  }

  method Skip(t: string, c: Cursor, n: nat) returns (r: Cursor)
    requires InPlace(t, c) && c.i + n <= |t|
    ensures InPlace(t, r) && r.i == c.i + n
  {
    hide InPlace;
    r := c;
    while r.i < c.i + n
      invariant r.i <= c.i + n && InPlace(t, r)
    {
      AdvanceInPlace(t, r);
      r := Advanced(r, t[r.i]);
    }
  }

  method ReadRun(t: string, c: Cursor, p: char -> bool) returns (r: Cursor, value: string)
    requires InPlace(t, c) && c.i <= |t|
    ensures InPlace(t, r) && c.i <= r.i <= |t| && r.i == c.i + Run(t[c.i..], p) && value == t[c.i..r.i]
  {
    hide InPlace;
    r, value := c, [];
    while r.i < |t| && p(t[r.i])
      invariant c.i <= r.i <= |t| && InPlace(t, r) && value == t[c.i..r.i]
      invariant Run(t[c.i..], p) == r.i - c.i + Run(t[r.i..], p)
    {
      assert t[r.i..][1..] == t[r.i + 1..] && t[r.i..][0] == t[r.i];
      AdvanceInPlace(t, r);
      value := value + [t[r.i]];
      r := Advanced(r, t[r.i]);
    }
  }

  lemma {:induction false} LiteralStep(t: string, i: nat, q: char)
    requires i < |t|
    ensures
      var end, closes := LiteralEnd(t[i..], q), LiteralCloses(t[i..], q);
      if t[i] != q then end == 1 + LiteralEnd(t[i + 1..], q) && closes == LiteralCloses(t[i + 1..], q)
      else if i + 1 < |t| && t[i + 1] == q then
        end == 2 + LiteralEnd(t[i + 2..], q) && closes == LiteralCloses(t[i + 2..], q)
      else end == 1 && closes
  {
    var rest := t[i..];
    assert rest[0] == t[i] && rest[1..] == t[i + 1..];
    assert i + 1 < |t| ==> rest[1] == t[i + 1] && rest[2..] == t[i + 2..];
  }

  lemma {:induction false} LiteralAtEnd(t: string, q: char)
    ensures LiteralEnd(t[|t|..], q) == 0 && !LiteralCloses(t[|t|..], q)
  {
  }

  method ReadLiteral(t: string, c: Cursor, q: char) returns (r: Cursor, value: string, closed: bool)
    requires InPlace(t, c) && c.i <= |t|
    ensures InPlace(t, r) && c.i <= r.i <= |t| && r.i == c.i + LiteralEnd(t[c.i..], q) && value == t[c.i..r.i]
    ensures closed == LiteralCloses(t[c.i..], q)
  {
    hide InPlace, LiteralEnd, LiteralCloses;
    r, value, closed := c, [], false;
    while r.i < |t|
      invariant c.i <= r.i <= |t| && InPlace(t, r) && value == t[c.i..r.i]
      invariant LiteralEnd(t[c.i..], q) == r.i - c.i + LiteralEnd(t[r.i..], q)
      invariant LiteralCloses(t[c.i..], q) == LiteralCloses(t[r.i..], q)
      decreases |t| - r.i
    {
      LiteralStep(t, r.i, q);
      var cur := t[r.i];
      value := value + [cur];
      AdvanceInPlace(t, r);
      r := Advanced(r, cur);
      if cur == q {
        if r.i < |t| && t[r.i] == q {
          value := value + [t[r.i]];
          AdvanceInPlace(t, r);
          r := Advanced(r, t[r.i]);
        } else {
          closed := true;
          return;
        }
      }
    }
    LiteralAtEnd(t, q);
  }

  lemma {:induction false} CommentStep(t: string, i: nat, depth: nat)
    requires i < |t| && depth > 0
    ensures
      var rest, end, closes := t[i..], CommentEnd(t[i..], depth), CommentCloses(t[i..], depth);
      if IsPair(rest, '/', '*') then
        end == 2 + CommentEnd(t[i + 2..], depth + 1) && closes == CommentCloses(t[i + 2..], depth + 1)
      else if IsPair(rest, '*', '/') then
        end == 2 + CommentEnd(t[i + 2..], depth - 1) && closes == CommentCloses(t[i + 2..], depth - 1)
      else end == 1 + CommentEnd(t[i + 1..], depth) && closes == CommentCloses(t[i + 1..], depth)
  {
    var rest := t[i..];
    assert rest[1..] == t[i + 1..];
    assert i + 1 < |t| ==> rest[2..] == t[i + 2..];
  }

  lemma {:induction false} CommentAtEnd(t: string, depth: nat)
    requires t == [] || depth == 0
    ensures CommentEnd(t, depth) == 0 && CommentCloses(t, depth) == (depth == 0)
  {
  }

  method SkipComment(t: string, c: Cursor) returns (r: Cursor, closed: bool)
    requires InPlace(t, c) && c.i <= |t|
    ensures InPlace(t, r) && c.i <= r.i <= |t| && r.i == c.i + CommentEnd(t[c.i..], 1)
    ensures closed == CommentCloses(t[c.i..], 1)
  {
    hide InPlace, CommentEnd, CommentCloses;
    var depth: nat := 1;
    r := c;
    while r.i < |t| && depth != 0
      invariant c.i <= r.i <= |t| && InPlace(t, r)
      invariant CommentEnd(t[c.i..], 1) == r.i - c.i + CommentEnd(t[r.i..], depth)
      invariant CommentCloses(t[c.i..], 1) == CommentCloses(t[r.i..], depth)
      decreases |t| - r.i
    {
      var rest := t[r.i..];
      CommentStep(t, r.i, depth);
      if IsPair(rest, '/', '*') {
        depth := depth + 1;
        r := Skip(t, r, 2);
      } else if IsPair(rest, '*', '/') {
        depth := depth - 1;
        r := Skip(t, r, 2);
      } else {
        r := Skip(t, r, 1);
      }
    }
    closed := depth == 0;
    CommentAtEnd(t[r.i..], depth);
  }

  /** What remains to be found from i is what the whole text holds, less what r holds. */
  ghost predicate Scanned(a: Alphabet, t: string, i: nat, r: LexResult) {
    && i <= |t|
    && r.tokens + TokensFrom(a, t, i) == TokensFrom(a, t, 0)
    && r.codeLines + LinesFrom(a, t, i) == LinesFrom(a, t, 0)
    && (r.openString || SomeOpenLiteral(a, t, i) <==> SomeOpenLiteral(a, t, 0))
    && (r.openComment || SomeOpenComment(a, t, i) <==> SomeOpenComment(a, t, 0))
  }

  /** The result after the piece at i. */
  function Including(a: Alphabet, t: string, i: nat, r: LexResult): LexResult
    requires i < |t|
  {
    var (piece, n) := First(a, t[i..]);
    LexResult(r.tokens + TokenAt(t, piece, i, n),
              r.codeLines + (if piece.Lexeme? || OpenComment(piece, t[i..]) then {LineBehind(t[..i])} else {}),
              r.openString || OpenLiteral(piece, t[i..]),
              r.openComment || OpenComment(piece, t[i..]))
  }

  lemma {:induction false} ScanStep(a: Alphabet, t: string, i: nat, r: LexResult)
    requires i < |t| && Scanned(a, t, i, r)
    ensures Scanned(a, t, i + First(a, t[i..]).1, Including(a, t, i, r))
  {
    hide First, OpenComment, OpenLiteral, TokenAt, LineBehind;
    var (piece, n) := First(a, t[i..]);
    assert r.tokens + (TokenAt(t, piece, i, n) + TokensFrom(a, t, i + n))
        == r.tokens + TokenAt(t, piece, i, n) + TokensFrom(a, t, i + n);
  }

  /** Finds the tokens of t with their places, the lines that hold code, and whether a literal
      or a comment stays open. */
  method Scan(a: Alphabet, t: string) returns (r: LexResult)
    ensures r.tokens == TokensFrom(a, t, 0)
    ensures r.codeLines == LinesFrom(a, t, 0)
    ensures r.openString == SomeOpenLiteral(a, t, 0)
    ensures r.openComment == SomeOpenComment(a, t, 0)
  {
    hide First, InPlace, Including, TokensFrom, LinesFrom, SomeOpenLiteral, SomeOpenComment;
    r := LexResult([], {}, false, false);
    var c := Cursor(0, 1, 1);
    StartScan(a, t);
    while c.i < |t|
      invariant Scanned(a, t, c.i, r) && InPlace(t, c)
      decreases |t| - c.i
    {
      ScanStep(a, t, c.i, r);
      c, r := ScanPiece(a, t, c, r);
    }
    EndScan(a, t);
  }

  lemma {:induction false} StartScan(a: Alphabet, t: string)
    ensures Scanned(a, t, 0, LexResult([], {}, false, false)) && InPlace(t, Cursor(0, 1, 1))
  {
    hide TokensFrom, LinesFrom, SomeOpenLiteral, SomeOpenComment;
    assert t[..0] == [];
  }

  lemma {:induction false} EndScan(a: Alphabet, t: string)
    ensures TokensFrom(a, t, |t|) == [] && LinesFrom(a, t, |t|) == {}
    ensures !SomeOpenLiteral(a, t, |t|) && !SomeOpenComment(a, t, |t|)
  {
  }

  method SkipTrivia(a: Alphabet, t: string, c: Cursor) returns (n: Cursor, open: bool)
    requires c.i < |t| && InPlace(t, c) && !First(a, t[c.i..]).0.Lexeme?
    ensures n.i == c.i + First(a, t[c.i..]).1 && InPlace(t, n)
    ensures open == OpenComment(First(a, t[c.i..]).0, t[c.i..])
  {
    hide InPlace, Run, LiteralEnd, CommentEnd, CommentCloses, IsTwoCharSymbol;
    var rest := t[c.i..];
    if a.isSpace(t[c.i]) {
      n := Skip(t, c, 1);
      open := false;
    } else {
      n := Skip(t, c, 2);
      assert rest[2..] == t[n.i..];
      if IsPair(rest, '-', '-') {
        var comment;
        n, comment := ReadRun(t, n, (d: char) => d != '\n');
        open := false;
      } else {
        var closed;
        n, closed := SkipComment(t, n);
        open := !closed;
      }
    }
  }

  method ReadToken(a: Alphabet, t: string, c: Cursor) returns (n: Cursor, kind: TokenKind, value: string, open: bool)
    requires c.i < |t| && InPlace(t, c) && First(a, t[c.i..]).0.Lexeme?
    ensures c.i < n.i <= |t| && First(a, t[c.i..]) == (Lexeme(kind), n.i - c.i) && value == t[c.i..n.i] && InPlace(t, n)
    ensures open == OpenLiteral(Lexeme(kind), t[c.i..])
  {
    hide InPlace, Run, LiteralEnd, CommentEnd, LiteralCloses, StartsWord, ContinuesWord, ContinuesNumber;
    var ch, rest := t[c.i], t[c.i..];
    kind, open := SYMBOL, false;
    n := Skip(t, c, 1);
    assert rest[1..] == t[n.i..];
    if ch == '\'' || ch == '"' {
      var closed;
      n, value, closed := ReadLiteral(t, n, ch);
      kind, open := if ch == '"' then QUOTED_IDENTIFIER else STRING, !closed;
    } else if StartsWord(a, ch) {
      kind := WORD;
      n, value := ReadRun(t, n, (d: char) => ContinuesWord(a, d));
    } else if a.isDigit(ch) {
      kind := NUMBER;
      n, value := ReadRun(t, n, (d: char) => ContinuesNumber(a, d));
    } else if IsTwoCharSymbol(rest) {
      value := t[c.i + 1..c.i + 2];
      n := Skip(t, n, 1);
    } else {
      value := [];
    }
    assert value == t[c.i + 1..n.i];
    FirstAndRest(t, c.i, n.i);
    value := [ch] + value;
  }

  lemma {:induction false} FirstAndRest(t: string, i: nat, n: nat)
    requires i < n <= |t|
    ensures t[i..n] == [t[i]] + t[i + 1..n]
  {
  }

  /** Reads one piece. */
  method ScanPiece(a: Alphabet, t: string, c: Cursor, was: LexResult) returns (n: Cursor, r: LexResult)
    requires c.i < |t| && InPlace(t, c)
    ensures n.i == c.i + First(a, t[c.i..]).1 && InPlace(t, n)
    ensures r == Including(a, t, c.i, was)
  {
    hide LineBehind, ColumnBehind, First, LiteralCloses, CommentCloses;
    r := was;
    var ch, rest := t[c.i], t[c.i..];
    TriviaIs(a, rest);
    if a.isSpace(ch) || IsPair(rest, '-', '-') || IsPair(rest, '/', '*') {
      var open;
      n, open := SkipTrivia(a, t, c);
      if open {
        r := r.(openComment := true, codeLines := r.codeLines + {c.line});
      }
    } else {
      var kind, value, open;
      n, kind, value, open := ReadToken(a, t, c);
      r := LexResult(r.tokens + [Token(kind, value, c.line, c.column, c.i)], r.codeLines + {c.line},
                     r.openString || open, r.openComment);
    }
  }

  lemma {:induction false} TriviaIs(a: Alphabet, t: string)
    requires t != []
    ensures First(a, t).0.Lexeme? <==> !(a.isSpace(t[0]) || IsPair(t, '-', '-') || IsPair(t, '/', '*'))
  {
  }
}
