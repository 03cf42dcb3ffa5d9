/** Blanking of comments in source text, in place, so that offsets and lines stay valid.

    The reference is a reading of the text as a sequence of pieces, each legal in front of what
    follows it.  Every text has a reading, and masking blanks the comments of any of them.

    A block comment that never closes is blanked up to the last character of the text. */
module CommentMask {
  import opened Basics
  import opened Literals

  // ----- the shapes of source text -----

  /** A piece of source text.  An OpenBlock is a block comment that never closes; the last
      character of the text is not part of it. */
  datatype Segment =
    | Plain(c: char)
    | Quoted(quote: char, body: string, closed: bool)
    | Dollar(tag: string, body: string, closed: bool)
    | Line(body: string)
    | Block(body: string)
    | OpenBlock(body: string)

  function Closing(mark: string, closed: bool): string {
    if closed then mark else []
  }

  function Text(s: Segment): string {
    match s
    case Plain(c) => [c]
    case Quoted(q, body, closed) => [q] + body + Closing([q], closed)
    case Dollar(tag, body, closed) => tag + body + Closing(tag, closed)
    case Line(body) => body
    case Block(body) => body
    case OpenBlock(body) => body
  }

  predicate IsComment(s: Segment) {
    s.Line? || s.Block? || s.OpenBlock?
  }

  predicate IsQuote(c: char) {
    c == '\'' || c == '"' || c == '`'
  }

  predicate IsTagChar(c: char) {
    'A' <= c <= 'Z' || 'a' <= c <= 'z' || '0' <= c <= '9' || c == '_'
  }

  predicate IsTag(tag: string) {
    |tag| >= 2 && tag[0] == '$' && tag[|tag| - 1] == '$' && forall i | 0 < i < |tag| - 1 :: IsTagChar(tag[i])
  }

  /** The mark stands in t at position k. */
  predicate Mark(t: string, k: nat, a: char, b: char) {
    k + 1 < |t| && t[k] == a && t[k + 1] == b
  }

  predicate TagAt(t: string, k: nat, tag: string) {
    k <= |t| && tag <= t[k..]
  }

  /** The tag begins nowhere in the first n positions of t. */
  predicate NoTag(t: string, n: nat, tag: string) {
    forall k | 0 <= k < n :: !TagAt(t, k, tag)
  }

  predicate StartsTag(t: string) {
    exists k: nat :: k <= |t| && IsTag(t[..k])
  }

  /** Every quote mark in body is doubled. */
  predicate Doubled(body: string, q: char)
    decreases |body|
  {
    body != [] ==>
      if body[0] == q then |body| > 1 && body[1] == q && Doubled(body[2..], q) else Doubled(body[1..], q)
  }

  /** s is a legal first piece of a text in which it is followed by rest. */
  ghost predicate Legal(s: Segment, rest: string) {
    match s
    case Plain(c) =>
      var t := [c] + rest;
      !IsQuote(c) && !StartsTag(t) && !Mark(t, 0, '-', '-') && !Mark(t, 0, '/', '*')
    case Quoted(q, body, closed) =>
      IsQuote(q) && Doubled(body, q) && if closed then rest == [] || rest[0] != q else rest == []
    case Dollar(tag, body, closed) =>
      && IsTag(tag) && (closed || rest == [])
      && NoTag(body + Closing(tag, closed), |body|, tag)
    case Line(body) =>
      Mark(body, 0, '-', '-') && '\n' !in body && (rest == [] || rest[0] == '\n')
    case Block(body) =>
      && |body| >= 3 && Mark(body, 0, '/', '*') && Mark(body, |body| - 2, '*', '/')
      && forall k | 1 <= k < |body| - 2 :: !Mark(body, k, '*', '/')
    case OpenBlock(body) =>
      |rest| == 1 && Mark(body + rest, 0, '/', '*') && forall k | 1 <= k < |body| :: !Mark(body + rest, k, '*', '/')
  }

  /** A reading of t as a sequence of pieces. */
  ghost predicate Reads(t: string, ss: seq<Segment>)
    decreases ss
  {
    if ss == [] then t == []
    else
      var first := Text(ss[0]);
      first <= t && Legal(ss[0], t[|first|..]) && Reads(t[|first|..], ss[1..])
  }

  function Blank(t: string): (r: string)
    ensures |r| == |t| && forall i | 0 <= i < |t| :: r[i] == if t[i] == '\n' then '\n' else ' '
  {
    if t == [] then [] else [if t[0] == '\n' then '\n' else ' '] + Blank(t[1..])
  }

  /** Comments are blanked, everything else is kept. */
  function Masked(s: Segment): string {
    if IsComment(s) then Blank(Text(s)) else Text(s)
  }

  function MaskedAll(ss: seq<Segment>): string {
    if ss == [] then [] else Masked(ss[0]) + MaskedAll(ss[1..])
  }

  // ----- the scan -----

  function DollarEnd(t: string, tag: string): (n: nat)
    ensures n <= |t|
    decreases |t|
  {
    if t == [] then 0 else if tag <= t then |tag| else 1 + DollarEnd(t[1..], tag)
  }

  function TagRun(t: string): (n: nat)
    ensures n <= |t|
    ensures forall i | 0 <= i < n :: IsTagChar(t[i])
    ensures n < |t| ==> !IsTagChar(t[n])
  {
    if t != [] && IsTagChar(t[0]) then 1 + TagRun(t[1..]) else 0
  }

  /** The length of the dollar tag that t begins with. */
  function TagLength(t: string): (n: Option<nat>)
    ensures n != None ==> 2 <= n.value <= |t| && IsTag(t[..n.value])
  {
    if t == [] || t[0] != '$' then None
    else
      var k := 1 + TagRun(t[1..]);
      if k < |t| && t[k] == '$' then Some(k + 1) else None
  }

  function LineEnd(t: string): (n: nat)
    ensures n <= |t| && '\n' !in t[..n] && (n < |t| ==> t[n] == '\n')
  {
    if t == [] || t[0] == '\n' then 0 else 1 + LineEnd(t[1..])
  }

  /** How many characters of t are blanked before the closing mark, or before the last one. */
  function BlockEnd(t: string): (n: nat)
    ensures n <= |t| && (t != [] ==> n < |t|)
    ensures forall k | 0 <= k < n :: !Mark(t, k, '*', '/')
    ensures n + 1 < |t| ==> Mark(t, n, '*', '/')
  {
    if |t| < 2 || Mark(t, 0, '*', '/') then 0
    else
      var n := BlockEnd(t[1..]);
      assert forall k | 1 <= k < n + 1 :: Mark(t, k, '*', '/') == Mark(t[1..], k - 1, '*', '/');
      1 + n
  }

  datatype Mode = Code | InQuote(quote: char) | InDollar(tag: string)

  /** The text after masking, when the scan stands in front of t in the given mode. */
  function Mask(mode: Mode, t: string): (r: string)
    ensures |r| == |t|
    decreases |t|, if mode == Code then 0 else 1
  {
    match mode
    case InQuote(q) => t[..LiteralEnd(t, q)] + Mask(Code, t[LiteralEnd(t, q)..])
    case InDollar(tag) => t[..DollarEnd(t, tag)] + Mask(Code, t[DollarEnd(t, tag)..])
    case Code =>
      if t == [] then []
      else if IsQuote(t[0]) then [t[0]] + Mask(InQuote(t[0]), t[1..])
      else if TagLength(t) != None then
        var n := TagLength(t).value;
        t[..n] + Mask(InDollar(t[..n]), t[n..])
      else if Mark(t, 0, '-', '-') then
        Blank(t[..LineEnd(t)]) + Mask(Code, t[LineEnd(t)..])
      else if Mark(t, 0, '/', '*') then
        var n := BlockEnd(t);
        var m := if n + 1 < |t| then n + 2 else n;
        Blank(t[..m]) + Mask(Code, t[m..])
      else [t[0]] + Mask(Code, t[1..])
  }

  // ----- the scan finds the pieces -----

  lemma {:induction false} TagIsUnique(t: string, k: nat)
    requires k <= |t| && IsTag(t[..k])
    ensures TagLength(t) == Some(k)
  {
    var n := 1 + TagRun(t[1..]);
    assert t[..k][0] == t[0] && t[..k][k - 1] == t[k - 1];
    forall i | 0 < i < k - 1 ensures IsTagChar(t[i]) {
      assert t[..k][i] == t[i];
    }
    assert forall i | 0 < i < n :: t[i] == t[1..][i - 1];
    assert n < |t| ==> t[n] == t[1..][n - 1];
  }

  lemma {:induction false} TagStarts(t: string)
    ensures StartsTag(t) <==> TagLength(t) != None
  {
    if k: nat :| k <= |t| && IsTag(t[..k]) {
      TagIsUnique(t, k);
    }
  }

  /** The scan of a literal stops where its text ends. */
  lemma {:induction false} LiteralEndIs(body: string, closed: bool, q: char, rest: string)
    requires Doubled(body, q) && if closed then rest == [] || rest[0] != q else rest == []
    ensures var end := body + Closing([q], closed); LiteralEnd(end + rest, q) == |end|
    decreases |body|
  {
    var end := body + Closing([q], closed);
    var t := end + rest;
    if body != [] {
      var n := if body[0] == q then 2 else 1;
      LiteralEndIs(body[n..], closed, q, rest);
      assert t[n..] == body[n..] + Closing([q], closed) + rest;
      assert t[0] == body[0] && (n == 2 ==> t[1] == body[1]);
    }
  }

  lemma {:induction false} NoTagCons(c: char, t: string, n: nat, tag: string)
    requires n <= |t|
    ensures NoTag([c] + t, n + 1, tag) <==> NoTag(t, n, tag) && !(tag <= [c] + t)
  {
    var longer := [c] + t;
    assert longer[0..] == longer;
    forall k | 0 <= k < n ensures TagAt(t, k, tag) <==> TagAt(longer, k + 1, tag) {
      assert t[k..] == longer[k + 1..];
    }
    assert NoTag(longer, n + 1, tag) ==> !TagAt(longer, 0, tag);
    forall k | 0 < k < n + 1 ensures TagAt(longer, k, tag) <==> TagAt(t, k - 1, tag) {
    }
  }

  lemma {:induction false} DollarEndIs(body: string, closed: bool, tag: string, rest: string)
    requires Legal(Dollar(tag, body, closed), rest)
    ensures var end := body + Closing(tag, closed); DollarEnd(end + rest, tag) == |end|
    decreases |body|
  {
    hide NoTag, IsTag, Closing;
    var end := body + Closing(tag, closed);
    var t := end + rest;
    if body != [] {
      var end' := body[1..] + Closing(tag, closed);
      assert end == [body[0]] + end' && t[1..] == end' + rest;
      NoTagCons(body[0], end', |body| - 1, tag);
      DollarEndIs(body[1..], closed, tag, rest);
      ClosingAlone(tag, closed);
      ClosingFits(tag, closed, end, rest);
    } else {
      ClosingAlone(tag, closed);
      assert end == Closing(tag, closed);
    }
  }

  /** A tag that is not a prefix of end cannot straddle its border. */
  lemma {:induction false} ClosingFits(tag: string, closed: bool, end: string, rest: string)
    requires !(tag <= end) && (closed || rest == []) && (closed ==> |end| >= |tag|)
    ensures !(tag <= end + rest)
  {
    if closed {
      assert forall i | 0 <= i < |tag| :: (end + rest)[i] == end[i];
    } else {
      assert end + rest == end;
    }
  }

  lemma {:induction false} ClosingAlone(tag: string, closed: bool)
    ensures |Closing(tag, closed)| == if closed then |tag| else 0
    ensures closed ==> Closing(tag, closed) == tag
  {
  }

  lemma {:induction false} LineEndIs(body: string, rest: string)
    requires '\n' !in body && (rest == [] || rest[0] == '\n')
    ensures LineEnd(body + rest) == |body|
  {
    var t := body + rest;
    if body == [] {
      assert t == rest;
    } else {
      assert t[0] == body[0] && t[1..] == body[1..] + rest;
      LineEndIs(body[1..], rest);
    }
  }

  /** BlockEnd is the first position of the closing mark, or the last position of all. */
  lemma {:induction false} BlockEndIs(t: string, n: nat)
    requires n < |t| && (n + 1 < |t| ==> Mark(t, n, '*', '/')) && forall k | 0 <= k < n :: !Mark(t, k, '*', '/')
    ensures BlockEnd(t) == n
  {
    var m := BlockEnd(t);
  }

  // ----- every reading has the same mask -----

  lemma {:induction false} MaskInside(mode: Mode, t: string, n: nat)
    requires !mode.Code? && n == if mode.InQuote? then LiteralEnd(t, mode.quote) else DollarEnd(t, mode.tag)
    ensures Mask(mode, t) == t[..n] + Mask(Code, t[n..])
  {
  }

  lemma {:induction false} MaskOpens(t: string)
    ensures t != [] && IsQuote(t[0]) ==> Mask(Code, t) == [t[0]] + Mask(InQuote(t[0]), t[1..])
    ensures TagLength(t) != None ==>
      var n := TagLength(t).value; Mask(Code, t) == t[..n] + Mask(InDollar(t[..n]), t[n..])
  {
  }

  lemma {:induction false} Cut(a: string, b: string)
    ensures (a + b)[..|a|] == a && (a + b)[|a|..] == b
  {
  }

  lemma {:induction false} MaskQuoted(s: Segment, rest: string)
    requires s.Quoted? && Legal(s, rest)
    ensures Mask(Code, Text(s) + rest) == Masked(s) + Mask(Code, rest)
  {
    hide Mask, LiteralEnd, TagLength, Doubled, Closing;
    var end := s.body + Closing([s.quote], s.closed);
    Regroup([s.quote], s.body, Closing([s.quote], s.closed));
    LiteralEndIs(s.body, s.closed, s.quote, rest);
    MaskLiteral(s.quote, end, rest);
  }

  lemma {:induction false} MaskLiteral(q: char, end: string, rest: string)
    requires IsQuote(q) && LiteralEnd(end + rest, q) == |end|
    ensures Mask(Code, [q] + end + rest) == [q] + end + Mask(Code, rest)
  {
    hide Mask, LiteralEnd, TagLength;
    var t := [q] + (end + rest);
    Regroup([q], end, rest);
    Regroup([q], end, Mask(Code, rest));
    Cut([q], end + rest);
    Cut(end, rest);
    MaskOpens(t);
    MaskInside(InQuote(q), end + rest, |end|);
  }

  lemma {:induction false} MaskDollar(s: Segment, rest: string)
    requires s.Dollar? && Legal(s, rest)
    ensures Mask(Code, Text(s) + rest) == Masked(s) + Mask(Code, rest)
  {
    hide Mask, DollarEnd, TagLength, NoTag, IsTag, Closing;
    var end := s.body + Closing(s.tag, s.closed);
    Regroup(s.tag, s.body, Closing(s.tag, s.closed));
    DollarEndIs(s.body, s.closed, s.tag, rest);
    MaskDollarLiteral(s.tag, end, rest);
  }

  lemma {:induction false} Regroup(a: string, b: string, c: string)
    ensures a + b + c == a + (b + c)
  {
  }

  lemma {:induction false} MaskDollarLiteral(tag: string, end: string, rest: string)
    requires IsTag(tag) && DollarEnd(end + rest, tag) == |end|
    ensures Mask(Code, tag + end + rest) == tag + end + Mask(Code, rest)
  {
    hide Mask, DollarEnd, TagLength, IsTag;
    var t := tag + (end + rest);
    Regroup(tag, end, rest);
    Cut(tag, end + rest);
    Cut(end, rest);
    TagIsUnique(t, |tag|);
    MaskOpens(t);
    MaskInside(InDollar(tag), end + rest, |end|);
    Regroup(tag, end, Mask(Code, rest));
  }

  lemma {:induction false} MaskLine(s: Segment, rest: string)
    requires s.Line? && Legal(s, rest)
    ensures Mask(Code, Text(s) + rest) == Masked(s) + Mask(Code, rest)
  {
    var t := s.body + rest;
    LineEndIs(s.body, rest);
    assert t[0] == '-' && t[1] == '-';
    assert t[..|s.body|] == s.body && t[|s.body|..] == rest;
  }

  lemma {:induction false} MaskBlock(s: Segment, rest: string)
    requires (s.Block? || s.OpenBlock?) && Legal(s, rest)
    ensures Mask(Code, Text(s) + rest) == Masked(s) + Mask(Code, rest)
  {
    var t, m := s.body + rest, |s.body|;
    assert t[..m] == s.body && t[m..] == rest;
    var n := if s.Block? then m - 2 else m;
    assert t[0] == '/' && t[1] == '*';
    forall k | 0 <= k < n ensures !Mark(t, k, '*', '/') {
      assert s.Block? && k > 0 ==> !Mark(s.body, k, '*', '/');
    }
    BlockEndIs(t, n);
  }

  lemma {:induction false} MaskPiece(s: Segment, rest: string)
    requires Legal(s, rest)
    ensures Mask(Code, Text(s) + rest) == Masked(s) + Mask(Code, rest)
  {
    match s
    case Plain(c) =>
      TagStarts([c] + rest);
      assert ([c] + rest)[1..] == rest;
    case Quoted(_, _, _) => MaskQuoted(s, rest);
    case Dollar(_, _, _) => MaskDollar(s, rest);
    case Line(_) => MaskLine(s, rest);
    case _ => MaskBlock(s, rest);
  }

  /** The mask of a text blanks the comments, and nothing else, of any way to read it. */
  lemma {:induction false} MaskBlanksComments(t: string, ss: seq<Segment>)
    requires Reads(t, ss)
    ensures Mask(Code, t) == MaskedAll(ss)
    decreases ss
  {
    hide Mask, Legal, Masked, Text;
    if ss == [] {
      MaskEmpty();
    } else {
      var n := |Text(ss[0])|;
      MaskBlanksComments(t[n..], ss[1..]);
      MaskPiece(ss[0], t[n..]);
      assert t == Text(ss[0]) + t[n..];
    }
  }

  lemma {:induction false} MaskEmpty()
    ensures Mask(Code, []) == []
  {
  }

  // ----- every text has a reading -----

  lemma {:induction false} QuotedPiece(t: string, q: char) returns (body: string, closed: bool)
    ensures var end := body + Closing([q], closed); end <= t && |end| == LiteralEnd(t, q)
    ensures Doubled(body, q)
    ensures var rest := t[LiteralEnd(t, q)..]; if closed then rest == [] || rest[0] != q else rest == []
    decreases |t|
  {
    if t == [] {
      body, closed := [], false;
    } else if t[0] == q && !(|t| > 1 && t[1] == q) {
      body, closed := [], true;
    } else {
      var n := if t[0] == q then 2 else 1;
      var inner;
      inner, closed := QuotedPiece(t[n..], q);
      body := t[..n] + inner;
      assert body[n..] == inner && body[0] == t[0];
      assert body + Closing([q], closed) == t[..n] + (inner + Closing([q], closed));
      assert t == t[..n] + t[n..];
    }
  }

  lemma {:induction false} NoTagEmpty(tag: string, closed: bool)
    ensures NoTag([] + Closing(tag, closed), 0, tag) && [] + Closing(tag, closed) == if closed then tag else []
  {
  }

  lemma {:induction false} DollarPiece(t: string, tag: string) returns (body: string, closed: bool)
    requires IsTag(tag)
    ensures var end := body + Closing(tag, closed); end <= t && |end| == DollarEnd(t, tag)
    ensures Legal(Dollar(tag, body, closed), t[DollarEnd(t, tag)..])
    decreases |t|
  {
    hide NoTag, IsTag, Closing;
    if t == [] {
      body, closed := [], false;
      NoTagEmpty(tag, closed);
    } else if tag <= t {
      body, closed := [], true;
      NoTagEmpty(tag, closed);
    } else {
      var inner;
      inner, closed := DollarPiece(t[1..], tag);
      body := [t[0]] + inner;
      var end := body + Closing(tag, closed);
      var end' := inner + Closing(tag, closed);
      assert end == [t[0]] + end' && t == [t[0]] + t[1..];
      assert t[DollarEnd(t, tag)..] == t[1..][DollarEnd(t[1..], tag)..];
      NoTagCons(t[0], end', |inner|, tag);
    }
  }

  lemma {:induction false} BlockPiece(t: string) returns (s: Segment)
    requires Mark(t, 0, '/', '*')
    ensures Text(s) <= t && Text(s) != [] && Legal(s, t[|Text(s)|..])
  {
    var n := BlockEnd(t);
    s := if n + 1 < |t| then Block(t[..n + 2]) else OpenBlock(t[..n]);
    var body, rest := s.body, t[|s.body|..];
    assert n != 0;
    if s.Block? {
      forall k | 1 <= k < |body| - 2 ensures !Mark(body, k, '*', '/') {
        assert !Mark(t, k, '*', '/');
      }
    } else {
      assert body + rest == t;
    }
  }

  lemma {:induction false} OpenQuotePiece(t: string) returns (s: Segment)
    requires t != [] && IsQuote(t[0])
    ensures Text(s) <= t && Text(s) != [] && Legal(s, t[|Text(s)|..])
  {
    hide LiteralEnd, Doubled;
    var body, closed := QuotedPiece(t[1..], t[0]);
    s := Quoted(t[0], body, closed);
    assert Text(s) == [t[0]] + (body + Closing([t[0]], closed)) && t == [t[0]] + t[1..];
    assert t[|Text(s)|..] == t[1..][|Text(s)| - 1..];
  }

  lemma {:induction false} OpenDollarPiece(t: string, n: nat) returns (s: Segment)
    requires n <= |t| && IsTag(t[..n])
    ensures Text(s) <= t && Text(s) != [] && Legal(s, t[|Text(s)|..])
  {
    hide DollarEnd, NoTag;
    var body, closed := DollarPiece(t[n..], t[..n]);
    s := Dollar(t[..n], body, closed);
    assert Text(s) == t[..n] + (body + Closing(t[..n], closed)) && t == t[..n] + t[n..];
    assert t[|Text(s)|..] == t[n..][|Text(s)| - n..];
  }

  lemma {:induction false} LinePiece(t: string) returns (s: Segment)
    requires Mark(t, 0, '-', '-')
    ensures Text(s) <= t && Text(s) != [] && Legal(s, t[|Text(s)|..])
  {
    s := Line(t[..LineEnd(t)]);
    LineIsLong(t);
  }

  lemma {:induction false} FirstPiece(t: string) returns (s: Segment)
    requires t != []
    ensures Text(s) <= t && Text(s) != [] && Legal(s, t[|Text(s)|..])
  {
    hide NoTag, StartsTag, TagLength, Doubled, TagAt;
    if IsQuote(t[0]) {
      s := OpenQuotePiece(t);
    } else if TagLength(t) != None {
      s := OpenDollarPiece(t, TagLength(t).value);
    } else if Mark(t, 0, '-', '-') {
      s := LinePiece(t);
    } else if Mark(t, 0, '/', '*') {
      s := BlockPiece(t);
    } else {
      s := Plain(t[0]);
      assert [t[0]] + t[1..] == t;
      TagStarts(t);
    }
  }

  lemma {:induction false} LineIsLong(t: string)
    requires Mark(t, 0, '-', '-')
    ensures LineEnd(t) >= 2
  {
    assert t[1..][0] == '-';
  }

  lemma {:induction false} TextHasReading(t: string) returns (ss: seq<Segment>)
    ensures Reads(t, ss)
    decreases |t|
  {
    hide Legal, Text;
    if t == [] {
      ss := [];
    } else {
      var s := FirstPiece(t);
      var rest := TextHasReading(t[|Text(s)|..]);
      ss := [s] + rest;
      assert ss[1..] == rest;
    }
  }

  // ----- what masking keeps -----

  /** r is t with some characters, none of them a line break, overwritten by spaces. */
  predicate Blanked(t: string, r: string) {
    |r| == |t| && forall i | 0 <= i < |t| :: r[i] == t[i] || (r[i] == ' ' && t[i] != '\n')
  }

  /** Masking keeps length and line breaks, and writes nothing but spaces. */
  lemma {:induction false} MaskOnlyBlanks(t: string)
    ensures Blanked(t, Mask(Code, t))
    decreases |t|
  {
    hide Mask, Legal, Text;
    if t == [] {
      MaskEmpty();
    } else {
      var s := FirstPiece(t);
      var rest := t[|Text(s)|..];
      assert t == Text(s) + rest;
      MaskOnlyBlanks(rest);
      MaskPiece(s, rest);
      assert Blanked(Text(s), Masked(s));
    }
  }

  lemma {:induction false} TagSurvives(t: string, t': string)
    requires Blanked(t, t') && StartsTag(t')
    ensures StartsTag(t)
  {
    var k: nat :| k <= |t'| && IsTag(t'[..k]);
    forall i | 0 <= i < k ensures t[i] == t'[i] {
      assert t'[..k][i] == t'[i];
    }
    assert t[..k] == t'[..k];
  }

  /** Blanking what follows a piece leaves it legal. */
  lemma {:induction false} LegalBeforeBlanks(s: Segment, rest: string, rest': string)
    requires Legal(s, rest) && Blanked(rest, rest') && !IsComment(s)
    ensures Legal(s, rest')
  {
    if s.Plain? {
      var t, t' := [s.c] + rest, [s.c] + rest';
      assert Blanked(t, t');
      if StartsTag(t') {
        TagSurvives(t, t');
      }
    }
  }

  lemma {:induction false} MaskSpaces(b: string, t: string)
    requires forall c | c in b :: c == ' ' || c == '\n'
    ensures Mask(Code, b + t) == b + Mask(Code, t)
    decreases |b|
  {
    hide Mask, Legal;
    if b == [] {
      assert b + t == t;
    } else {
      assert b[0] in b && forall c | c in b[1..] :: c in b;
      MaskSpaces(b[1..], t);
      assert b + t == [b[0]] + (b[1..] + t) && b == [b[0]] + b[1..];
      SpaceIsPlain(b[0], b[1..] + t);
      MaskPiece(Plain(b[0]), b[1..] + t);
    }
  }

  lemma {:induction false} SpaceIsPlain(c: char, rest: string)
    requires c == ' ' || c == '\n'
    ensures Legal(Plain(c), rest)
  {
    var t := [c] + rest;
    assert t[0] == c;
    if StartsTag(t) {
      TagStarts(t);
    }
  }

  lemma {:induction false} BlankIsSpaces(t: string)
    ensures forall c | c in Blank(t) :: c == ' ' || c == '\n'
  {
  }

  /** Masking a masked text changes nothing. */
  lemma {:induction false} MaskIsIdempotent(t: string)
    ensures Mask(Code, Mask(Code, t)) == Mask(Code, t)
    decreases |t|
  {
    hide Mask, Legal, Text, Blank;
    if t == [] {
      MaskEmpty();
    } else {
      var s := FirstPiece(t);
      var rest := t[|Text(s)|..];
      assert t == Text(s) + rest;
      MaskIsIdempotent(rest);
      MaskPiece(s, rest);
      if IsComment(s) {
        BlankIsSpaces(Text(s));
        MaskSpaces(Blank(Text(s)), Mask(Code, rest));
      } else {
        MaskOnlyBlanks(rest);
        LegalBeforeBlanks(s, rest, Mask(Code, rest));
        MaskPiece(s, Mask(Code, rest));
      }
    }
  }

  // ----- the scan in place -----

  ghost predicate Masking(text: string, chars: string, i: nat, mode: Mode) {
    && i <= |chars| == |text| && chars[i..] == text[i..]
    && Mask(Code, text) == chars[..i] + Mask(mode, text[i..])
  }

  /** chars is was with the characters from i up to j, except line breaks, overwritten. */
  ghost predicate Overwritten(was: string, chars: string, i: nat, j: nat) {
    && i <= j <= |was| == |chars|
    && chars == was[..i] + Blank(was[i..j]) + was[j..]
  }

  ghost predicate OverwrittenAt(was: string, chars: string, i: nat, j: nat) {
    && i <= j <= |was| == |chars|
    && forall k | 0 <= k < |was| :: chars[k] == if i <= k < j && was[k] != '\n' then ' ' else was[k]
  }

  lemma {:induction false} OverwrittenIs(was: string, chars: string, i: nat, j: nat)
    requires OverwrittenAt(was, chars, i, j)
    ensures Overwritten(was, chars, i, j)
  {
    assert Blank(was[i..j]) == chars[i..j];
    assert chars[..i] == was[..i] && chars[j..] == was[j..];
    assert chars == chars[..i] + chars[i..j] + chars[j..];
  }

  method BlankLine(chars: array<char>, i: nat) returns (j: nat)
    requires i <= chars.Length
    modifies chars
    ensures j == i + LineEnd(old(chars[i..])) && Overwritten(old(chars[..]), chars[..], i, j)
  {
    ghost var was := chars[..];
    j := i;
    while j < chars.Length && chars[j] != '\n'
      invariant OverwrittenAt(was, chars[..], i, j)
      invariant '\n' !in was[i..j]
    {
      assert was[i..j + 1] == was[i..j] + [was[j]];
      chars[j] := ' ';
      j := j + 1;
    }
    OverwrittenIs(was, chars[..], i, j);
    assert was[i..] == was[i..j] + was[j..];
    LineEndIs(was[i..j], was[j..]);
  }

  method BlankBlock(chars: array<char>, i: nat) returns (j: nat)
    requires Mark(chars[..], i, '/', '*')
    modifies chars
    ensures
      var n := BlockEnd(old(chars[i..]));
      && j == i + (if n + 1 < |old(chars[i..])| then n + 2 else n)
      && Overwritten(old(chars[..]), chars[..], i, j)
  {
    ghost var was := chars[..];
    j := i;
    while j + 1 < chars.Length && !(chars[j] == '*' && chars[j + 1] == '/')
      invariant OverwrittenAt(was, chars[..], i, j) && j < chars.Length
      invariant forall k | 0 <= k < j - i :: !Mark(was[i..], k, '*', '/')
    {
      if chars[j] != '\n' {
        chars[j] := ' ';
      }
      j := j + 1;
    }
    BlockEndIs(was[i..], j - i);
    if j + 1 < chars.Length {
      chars[j], chars[j + 1] := ' ', ' ';
      j := j + 2;
    }
    OverwrittenIs(was, chars[..], i, j);
  }

  /** Masking t in one mode keeps its first n characters and goes on in another mode. */
  ghost predicate Keeps(mode: Mode, t: string, n: nat, mode': Mode) {
    0 < n <= |t| && Mask(mode, t) == t[..n] + Mask(mode', t[n..])
  }

  lemma {:induction false} StepInDollar(tag: string, t: string)
    requires t != [] && IsTag(tag)
    ensures if tag <= t then Keeps(InDollar(tag), t, |tag|, Code) else Keeps(InDollar(tag), t, 1, InDollar(tag))
  {
    hide Mask;
    var n := DollarEnd(t, tag);
    MaskInside(InDollar(tag), t, n);
    if !(tag <= t) {
      MaskInside(InDollar(tag), t[1..], n - 1);
      assert t[..n] == t[..1] + t[1..][..n - 1] && t[n..] == t[1..][n - 1..];
    }
  }

  lemma {:induction false} StepInQuote(q: char, t: string)
    requires t != []
    ensures
      if t[0] != q then Keeps(InQuote(q), t, 1, InQuote(q))
      else if |t| > 1 && t[1] == q then Keeps(InQuote(q), t, 2, InQuote(q))
      else Keeps(InQuote(q), t, 1, Code)
  {
    hide Mask;
    var n := LiteralEnd(t, q);
    MaskInside(InQuote(q), t, n);
    var k := if t[0] != q then 1 else if |t| > 1 && t[1] == q then 2 else 0;
    if k > 0 {
      MaskInside(InQuote(q), t[k..], n - k);
      assert t[..n] == t[..k] + t[k..][..n - k] && t[n..] == t[k..][n - k..];
    }
  }

  lemma {:induction false} OpensQuote(t: string)
    requires t != [] && IsQuote(t[0])
    ensures Keeps(Code, t, 1, InQuote(t[0]))
  {
    hide LiteralEnd, TagLength;
    MaskOpens(t);
  }

  lemma {:induction false} OpensDollar(t: string, n: nat)
    requires TagLength(t) == Some(n)
    ensures 2 <= n <= |t| && IsTag(t[..n]) && Keeps(Code, t, n, InDollar(t[..n]))
  {
    hide Mask, TagLength;
    MaskOpens(t);
  }

  /** A piece of code begins no literal. */
  ghost predicate Bare(t: string) {
    t != [] && !IsQuote(t[0]) && TagLength(t) == None
  }

  lemma {:induction false} OpensLine(t: string)
    requires Bare(t) && Mark(t, 0, '-', '-')
    ensures LineEnd(t) > 0 && Mask(Code, t) == Blank(t[..LineEnd(t)]) + Mask(Code, t[LineEnd(t)..])
  {
    hide TagLength, Blank;
  }

  lemma {:induction false} OpensBlock(t: string, m: nat)
    requires Bare(t) && Mark(t, 0, '/', '*') && m == if BlockEnd(t) + 1 < |t| then BlockEnd(t) + 2 else BlockEnd(t)
    ensures 0 < m <= |t| && Mask(Code, t) == Blank(t[..m]) + Mask(Code, t[m..])
  {
    hide TagLength, Blank, BlockEnd, LineEnd;
    BlockIsLong(t);
  }

  lemma {:induction false} BlockIsLong(t: string)
    requires Mark(t, 0, '/', '*')
    ensures BlockEnd(t) > 0
  {
  }

  lemma {:induction false} OpensNothing(t: string)
    requires Bare(t) && !Mark(t, 0, '-', '-') && !Mark(t, 0, '/', '*')
    ensures Keeps(Code, t, 1, Code)
  {
    hide TagLength;
  }

  lemma {:induction false} Advance(text: string, chars: string, i: nat, mode: Mode, n: nat, mode': Mode)
    requires Masking(text, chars, i, mode) && Keeps(mode, text[i..], n, mode')
    ensures Masking(text, chars, i + n, mode')
  {
    hide Mask;
    assert text[i..][n..] == text[i + n..] && chars[i + n..] == chars[i..][n..];
    assert chars[..i] + text[i..][..n] == chars[..i + n] by {
      assert text[i..][..n] == chars[i..][..n];
    }
  }

  lemma {:induction false} AdvanceBlank(text: string, was: string, chars: string, i: nat, j: nat)
    requires Masking(text, was, i, Code) && Overwritten(was, chars, i, j)
    requires Mask(Code, text[i..]) == Blank(text[i..][..j - i]) + Mask(Code, text[i..][j - i..])
    ensures Masking(text, chars, j, Code)
  {
    hide Mask, Blank;
    assert text[i..][j - i..] == text[j..] && was[j..] == was[i..][j - i..];
    assert was[i..j] == was[i..][..j - i] == text[i..][..j - i];
    BlankLength(was[i..j]);
    assert chars[..j] == was[..i] + Blank(was[i..j]);
    assert chars[j..] == was[j..];
  }

  lemma {:induction false} BlankLength(t: string)
    ensures |Blank(t)| == |t|
  {
  }

  lemma {:induction false} MaskAtEnd(mode: Mode)
    ensures Mask(mode, []) == []
  {
  }

  /** One step of the scan outside literals. */
  method MaskCode(chars: array<char>, ghost text: string, i: nat) returns (j: nat, mode: Mode)
    requires i < chars.Length && Masking(text, chars[..], i, Code)
    modifies chars
    ensures i < j <= chars.Length && Masking(text, chars[..], j, mode) && (mode.InDollar? ==> IsTag(mode.tag))
  {
    hide Mask, LiteralEnd, DollarEnd, TagLength, LineEnd, BlockEnd, Overwritten, Masking, Keeps, Blank, IsTag, IsQuote;
    mode := Code;
    var rest := chars[i..];
    ghost var was := chars[..];
    MaskingIs(text, was, i, mode);
    var tag := TagLength(rest);
    if IsQuote(rest[0]) {
      OpensQuote(rest);
      Advance(text, was, i, Code, 1, InQuote(rest[0]));
      j, mode := i + 1, InQuote(rest[0]);
    } else if tag != None {
      OpensDollar(rest, tag.value);
      Advance(text, was, i, Code, tag.value, InDollar(rest[..tag.value]));
      j, mode := i + tag.value, InDollar(rest[..tag.value]);
    } else if Mark(rest, 0, '-', '-') {
      OpensLine(rest);
      j := BlankLine(chars, i);
      AdvanceBlank(text, was, chars[..], i, j);
    } else if Mark(rest, 0, '/', '*') {
      j := BlankBlock(chars, i);
      OpensBlock(rest, j - i);
      AdvanceBlank(text, was, chars[..], i, j);
    } else {
      OpensNothing(rest);
      Advance(text, was, i, Code, 1, Code);
      j := i + 1;
    }
  }

  /** Masks the comments of a text in place. */
  method MaskComments(chars: array<char>)
    modifies chars
    ensures chars[..] == Mask(Code, old(chars[..]))
  {
    hide Mask, LiteralEnd, DollarEnd, TagLength, LineEnd, BlockEnd, Overwritten, Masking, Keeps, Blank;
    ghost var text := chars[..];
    var i, mode := 0, Code;
    StartMasking(text);
    while i < chars.Length
      invariant i <= chars.Length && Masking(text, chars[..], i, mode)
      invariant mode.InDollar? ==> IsTag(mode.tag)
      decreases chars.Length - i
    {
      var rest := chars[i..];
      MaskingIs(text, chars[..], i, mode);
      assert rest == text[i..];
      match mode
      case InDollar(tag) =>
        StepInDollar(tag, rest);
        if tag <= rest {
          Advance(text, chars[..], i, mode, |tag|, Code);
          i, mode := i + |tag|, Code;
        } else {
          Advance(text, chars[..], i, mode, 1, mode);
          i := i + 1;
        }
      case InQuote(q) =>
        StepInQuote(q, rest);
        if chars[i] == q {
          if i + 1 < chars.Length && chars[i + 1] == q {
            Advance(text, chars[..], i, mode, 2, mode);
            i := i + 2;
          } else {
            Advance(text, chars[..], i, mode, 1, Code);
            i, mode := i + 1, Code;
          }
        } else {
          Advance(text, chars[..], i, mode, 1, mode);
          i := i + 1;
        }
      case Code => i, mode := MaskCode(chars, text, i);
    }
    EndMasking(text, chars[..], mode);
  }

  lemma {:induction false} StartMasking(text: string)
    ensures Masking(text, text, 0, Code)
  {
    hide Mask;
    assert text[0..] == text && text[..0] == [];
  }

  lemma {:induction false} MaskingIs(text: string, chars: string, i: nat, mode: Mode)
    requires Masking(text, chars, i, mode)
    ensures i <= |chars| == |text| && chars[i..] == text[i..]
  {
  }

  lemma {:induction false} EndMasking(text: string, chars: string, mode: Mode)
    requires Masking(text, chars, |chars|, mode)
    ensures chars == Mask(Code, text)
  {
    hide Mask;
    MaskAtEnd(mode);
    assert text[|text|..] == [] && chars[..|chars|] + [] == chars;
  }
}
