/**
What the lexer does to commented text, token by token: comments and the commas before a closing
bracket become spaces, and nothing else changes.
*/
module Json5Meaning {
  import opened Json5Lexer

  datatype StrItem = Raw(b: byte) | Esc(b: byte)

  datatype Token =
    | Quoted(items: seq<StrItem>)
    | Plain(b: byte)
    | Space(b: byte)
    | Close(b: byte)
    | Comma
    | LineComment(body: seq<byte>)
    | BlockComment(body: seq<byte>)

  predicate IsPlain(b: byte) {
    b != QUOTE && b != SLASH && b != COMMA && !IsWS(b) && !IsClose(b)
  }

  /** Every star inside the comment is followed, inside the comment, by a space. */
  predicate StarsPadded(body: seq<byte>) {
    forall k :: 0 <= k < |body| && body[k] == STAR ==> k + 1 < |body| && body[k + 1] == SPACE
  }

  predicate IsComment(t: Token) {
    t.LineComment? || t.BlockComment?
  }

  predicate ValidItem(x: StrItem) {
    x.Raw? ==> x.b != QUOTE && x.b != BACKSLASH
  }

  predicate ValidToken(t: Token) {
    match t
    case Quoted(items) => forall x :: x in items ==> ValidItem(x)
    case Plain(b) => IsPlain(b)
    case Space(b) => IsWS(b)
    case Close(b) => IsClose(b)
    case Comma => true
    case LineComment(body) => forall b :: b in body ==> !IsNL(b)
    case BlockComment(body) => StarsPadded(body)
  }

  /** Valid tokens, where a line comment ends at a line break or at the end of the text. */
  predicate WellFormed(ts: seq<Token>) {
    ts != [] ==>
    && ValidToken(ts[0]) && WellFormed(ts[1..])
    && (ts[0].LineComment? && |ts| > 1 ==> ts[1].Space? && IsNL(ts[1].b))
  }

  function RenderItem(x: StrItem): seq<byte> {
    match x
    case Raw(b) => [b]
    case Esc(b) => [BACKSLASH, b]
  }

  function RenderItems(items: seq<StrItem>): seq<byte> {
    if items == [] then []
    else RenderItem(items[0]) + RenderItems(items[1..])
  }

  function RenderToken(t: Token): seq<byte> {
    match t
    case Quoted(items) => [QUOTE] + (RenderItems(items) + [QUOTE])
    case Plain(b) => [b]
    case Space(b) => [b]
    case Close(b) => [b]
    case Comma => [COMMA]
    case LineComment(body) => [SLASH, SLASH] + body
    case BlockComment(body) => [SLASH, STAR] + (body + [STAR, SLASH])
  }

  function Render(ts: seq<Token>): seq<byte> {
    if ts == [] then [] else RenderToken(ts[0]) + Render(ts[1..])
  }

  /** Whether the next token that is neither space nor comment is a closing bracket. */
  predicate NextIsClose(ts: seq<Token>) {
    ts != [] &&
    (ts[0].Close? || ((ts[0].Space? || IsComment(ts[0])) && NextIsClose(ts[1..])))
  }

  function Blanks(n: nat): seq<Token> {
    if n == 0 then [] else [Space(SPACE)] + Blanks(n - 1)
  }

  /** The text with its comments and its trailing commas turned into spaces. */
  function Cleaned(ts: seq<Token>): seq<Token> {
    if ts == [] then []
    else match ts[0]
      case LineComment(body) => Blanks(|body| + 2) + Cleaned(ts[1..])
      case BlockComment(body) => Blanks(|body| + 4) + Cleaned(ts[1..])
      case Comma => [if NextIsClose(ts[1..]) then Space(SPACE) else Comma] + Cleaned(ts[1..])
      case t => [t] + Cleaned(ts[1..])
  }

  // ---------- one token at a time ----------

  function Spaces(n: nat): (s: seq<byte>)
    ensures |s| == n && forall k :: 0 <= k < n ==> s[k] == SPACE
  {
    seq(n, _ => SPACE)
  }

  lemma Assoc(a: seq<byte>, b: seq<byte>, c: seq<byte>)
    ensures a + b + c == a + (b + c)
  {
  }

  lemma {:induction false} LexString(items: seq<StrItem>, rest: seq<byte>)
    requires forall x :: x in items ==> ValidItem(x)
    ensures Lex(Str, RenderItems(items) + ([QUOTE] + rest)) == RenderItems(items) + ([QUOTE] + Lex(Code, rest))
  {
    if items == [] {
      assert RenderItems(items) + ([QUOTE] + rest) == [QUOTE] + rest;
      assert ([QUOTE] + rest)[1..] == rest;
    } else {
      LexString(items[1..], rest);
      var (head, mid) := (RenderItem(items[0]), RenderItems(items[1..]));
      LexItem(items[0], mid + ([QUOTE] + rest));
      Assoc(head, mid, [QUOTE] + rest);
      Assoc(head, mid, [QUOTE] + Lex(Code, rest));
    }
  }

  lemma LexItem(x: StrItem, rest: seq<byte>)
    requires ValidItem(x)
    ensures Lex(Str, RenderItem(x) + rest) == RenderItem(x) + Lex(Str, rest)
  {
    var s := RenderItem(x) + rest;
    assert s[|RenderItem(x)|..] == rest && s[..|RenderItem(x)|] == RenderItem(x);
  }

  lemma {:induction false} LexLine(m: Mode, body: seq<byte>, rest: seq<byte>)
    requires Resumable(m) && (forall b :: b in body ==> !IsNL(b)) && (rest != [] ==> IsNL(rest[0]))
    ensures Lex(Line(m), body + rest) == Spaces(|body|) + Lex(m, rest)
  {
    if body == [] {
      assert body + rest == rest;
    } else {
      calc {
        Lex(Line(m), body + rest);
        { assert (body + rest)[1..] == body[1..] + rest; }
        [SPACE] + Lex(Line(m), body[1..] + rest);
        { LexLine(m, body[1..], rest); }
        [SPACE] + (Spaces(|body| - 1) + Lex(m, rest));
        { assert [SPACE] + Spaces(|body| - 1) == Spaces(|body|); }
        Spaces(|body|) + Lex(m, rest);
      }
    }
  }

  lemma {:induction false} TrailingLine(body: seq<byte>, rest: seq<byte>)
    requires (forall b :: b in body ==> !IsNL(b)) && (rest != [] ==> IsNL(rest[0]))
    ensures IsTrailing(Line(Gap), body + rest) == IsTrailing(Gap, rest)
  {
    if body == [] {
      assert body + rest == rest;
    } else {
      assert (body + rest)[1..] == body[1..] + rest;
      TrailingLine(body[1..], rest);
    }
  }

  lemma BlockReads(m: Mode, b: byte, rest: seq<byte>)
    requires Resumable(m) && b != STAR
    ensures Lex(Block(m), [b] + rest) == [SPACE] + Lex(Block(m), rest)
  {
    assert ([b] + rest)[1..] == rest;
  }

  lemma BlockReadsStar(m: Mode, b: byte, rest: seq<byte>)
    requires Resumable(m)
    ensures Lex(Block(m), [STAR, b] + rest) ==
            if b == SLASH then [SPACE, SPACE] + Lex(m, rest) else [SPACE, b] + Lex(Block(m), rest)
  {
    assert ([STAR, b] + rest)[2..] == rest;
  }

  lemma {:induction false} LexBlock(m: Mode, body: seq<byte>, rest: seq<byte>)
    requires Resumable(m) && StarsPadded(body)
    ensures Lex(Block(m), body + ([STAR, SLASH] + rest)) == Spaces(|body| + 2) + Lex(m, rest)
  {
    var tail := [STAR, SLASH] + rest;
    if body == [] {
      assert body + tail == tail;
      BlockReadsStar(m, SLASH, rest);
      assert [SPACE, SPACE] == Spaces(2);
    } else if body[0] == STAR {
      assert body[1] == SPACE;
      calc {
        Lex(Block(m), body + tail);
        { assert body + tail == [STAR, SPACE] + (body[2..] + tail); }
        Lex(Block(m), [STAR, SPACE] + (body[2..] + tail));
        { BlockReadsStar(m, SPACE, body[2..] + tail); }
        [SPACE, SPACE] + Lex(Block(m), body[2..] + tail);
        { LexBlock(m, body[2..], rest); }
        [SPACE, SPACE] + (Spaces(|body|) + Lex(m, rest));
        { MoreSpaces(|body|, Lex(m, rest)); }
        Spaces(|body| + 2) + Lex(m, rest);
      }
    } else {
      calc {
        Lex(Block(m), body + tail);
        { assert body + tail == [body[0]] + (body[1..] + tail); }
        Lex(Block(m), [body[0]] + (body[1..] + tail));
        { BlockReads(m, body[0], body[1..] + tail); }
        [SPACE] + Lex(Block(m), body[1..] + tail);
        { LexBlock(m, body[1..], rest); }
        [SPACE] + (Spaces(|body| + 1) + Lex(m, rest));
        { assert [SPACE] + Spaces(|body| + 1) == Spaces(|body| + 2); }
        Spaces(|body| + 2) + Lex(m, rest);
      }
    }
  }

  lemma {:induction false} TrailingBlock(body: seq<byte>, rest: seq<byte>)
    requires StarsPadded(body)
    ensures IsTrailing(Block(Gap), body + ([STAR, SLASH] + rest)) == IsTrailing(Gap, rest)
  {
    var tail := [STAR, SLASH] + rest;
    var s := body + tail;
    if body == [] {
      assert s == tail && s[2..] == rest;
    } else if body[0] == STAR {
      assert body[1] == SPACE;
      TrailingBlock(body[2..], rest);
      assert s[2..] == body[2..] + tail;
    } else {
      TrailingBlock(body[1..], rest);
      assert s[1..] == body[1..] + tail;
    }
  }

  function CommentMode(m: Mode, second: byte): Mode {
    if second == STAR then Block(m) else Line(m)
  }

  /** The two bytes that open a comment. */
  lemma CommentOpens(m: Mode, second: byte, rest: seq<byte>)
    requires Resumable(m) && (second == SLASH || second == STAR)
    ensures Lex(m, [SLASH, second] + rest) == [SPACE, SPACE] + Lex(CommentMode(m, second), rest)
  {
    var s := [SLASH, second] + rest;
    assert s[2..] == rest && s[0] == SLASH && s[1] == second;
    if m.Gap? {
      assert Lex(Gap, s) == [SPACE, SPACE] + Lex(CommentMode(Gap, second), s[2..]);
    } else {
      assert Lex(Code, s) == [SPACE, SPACE] + Lex(CommentMode(Code, second), s[2..]);
    }
  }

  lemma TrailingOpens(second: byte, rest: seq<byte>)
    requires second == SLASH || second == STAR
    ensures IsTrailing(Gap, [SLASH, second] + rest) == IsTrailing(CommentMode(Gap, second), rest)
  {
    var s := [SLASH, second] + rest;
    assert s[2..] == rest && s[0] == SLASH && s[1] == second;
  }

  lemma MoreSpaces(n: nat, rest: seq<byte>)
    ensures [SPACE, SPACE] + (Spaces(n) + rest) == Spaces(n + 2) + rest
  {
    assert [SPACE, SPACE] + Spaces(n) == Spaces(n + 2);
  }

  lemma LexLineComment(m: Mode, body: seq<byte>, rest: seq<byte>)
    requires Resumable(m) && (forall b :: b in body ==> !IsNL(b)) && (rest != [] ==> IsNL(rest[0]))
    ensures Lex(m, [SLASH, SLASH] + (body + rest)) == Spaces(|body| + 2) + Lex(m, rest)
  {
    CommentOpens(m, SLASH, body + rest);
    LexLine(m, body, rest);
    MoreSpaces(|body|, Lex(m, rest));
  }

  lemma LexBlockComment(m: Mode, body: seq<byte>, rest: seq<byte>)
    requires Resumable(m) && StarsPadded(body)
    ensures Lex(m, [SLASH, STAR] + (body + ([STAR, SLASH] + rest))) == Spaces(|body| + 4) + Lex(m, rest)
  {
    CommentOpens(m, STAR, body + ([STAR, SLASH] + rest));
    LexBlock(m, body, rest);
    MoreSpaces(|body| + 2, Lex(m, rest));
  }

  lemma CommentParts(t: Token, rest: seq<byte>)
    requires IsComment(t)
    ensures RenderToken(t) + rest ==
            if t.LineComment? then [SLASH, SLASH] + (t.body + rest)
            else [SLASH, STAR] + (t.body + ([STAR, SLASH] + rest))
  {
  }

  /** One comment in front of `rest`, read in plain text or after a comma. */
  lemma LexComment(m: Mode, t: Token, rest: seq<byte>)
    requires Resumable(m) && ValidToken(t) && IsComment(t) && (t.LineComment? && rest != [] ==> IsNL(rest[0]))
    ensures Lex(m, RenderToken(t) + rest) == Spaces(|RenderToken(t)|) + Lex(m, rest)
  {
    CommentParts(t, rest);
    if t.LineComment? {
      LexLineComment(m, t.body, rest);
    } else {
      LexBlockComment(m, t.body, rest);
    }
  }

  lemma TrailingComment(t: Token, rest: seq<byte>)
    requires ValidToken(t) && IsComment(t) && (t.LineComment? && rest != [] ==> IsNL(rest[0]))
    ensures IsTrailing(Gap, RenderToken(t) + rest) == IsTrailing(Gap, rest)
  {
    CommentParts(t, rest);
    if t.LineComment? {
      TrailingOpens(SLASH, t.body + rest);
      TrailingLine(t.body, rest);
    } else {
      TrailingOpens(STAR, t.body + ([STAR, SLASH] + rest));
      TrailingBlock(t.body, rest);
    }
  }

  lemma LexQuoted(m: Mode, items: seq<StrItem>, rest: seq<byte>)
    requires Resumable(m) && ValidToken(Quoted(items))
    ensures Lex(m, RenderToken(Quoted(items)) + rest) == RenderToken(Quoted(items)) + Lex(Code, rest)
  {
    var inner := RenderItems(items);
    calc {
      Lex(m, RenderToken(Quoted(items)) + rest);
      { assert [QUOTE] + (inner + [QUOTE]) + rest == [QUOTE] + (inner + ([QUOTE] + rest)); }
      Lex(m, [QUOTE] + (inner + ([QUOTE] + rest)));
      { assert ([QUOTE] + (inner + ([QUOTE] + rest)))[1..] == inner + ([QUOTE] + rest); }
      [QUOTE] + Lex(Str, inner + ([QUOTE] + rest));
      { LexString(items, rest); }
      [QUOTE] + (inner + ([QUOTE] + Lex(Code, rest)));
      { assert [QUOTE] + (inner + [QUOTE]) + Lex(Code, rest) == [QUOTE] + (inner + ([QUOTE] + Lex(Code, rest))); }
      RenderToken(Quoted(items)) + Lex(Code, rest);
    }
  }

  /** A byte the filter never changes, wherever it stands. */
  lemma LexKept(m: Mode, t: Token, rest: seq<byte>)
    requires Resumable(m) && ValidToken(t) && (t.Plain? || t.Close? || t.Space?)
    ensures Lex(m, RenderToken(t) + rest) == RenderToken(t) + Lex(if t.Space? then m else Code, rest)
  {
    assert ([t.b] + rest)[1..] == rest;
  }

  /** Unfolds the rendering of a text by one token, and nothing else. */
  lemma RenderCons(t: Token, ts: seq<Token>)
    ensures Render([t] + ts) == RenderToken(t) + Render(ts)
  {
    assert ([t] + ts)[1..] == ts;
  }

  lemma {:induction false} RenderConcat(a: seq<Token>, b: seq<Token>)
    ensures Render(a + b) == Render(a) + Render(b)
  {
    if a == [] {
      assert a + b == b;
    } else {
      calc {
        Render(a + b);
        { assert a + b == [a[0]] + (a[1..] + b); }
        Render([a[0]] + (a[1..] + b));
        { RenderCons(a[0], a[1..] + b); }
        RenderToken(a[0]) + Render(a[1..] + b);
        { RenderConcat(a[1..], b); }
        RenderToken(a[0]) + (Render(a[1..]) + Render(b));
        { Assoc(RenderToken(a[0]), Render(a[1..]), Render(b)); }
        RenderToken(a[0]) + Render(a[1..]) + Render(b);
        Render(a) + Render(b);
      }
    }
  }

  lemma {:induction false} RenderBlanks(n: nat)
    ensures Render(Blanks(n)) == Spaces(n)
  {
    if n > 0 {
      RenderBlanks(n - 1);
      assert Blanks(n)[1..] == Blanks(n - 1);
    }
  }

  // ---------- whole texts ----------

  lemma {:induction false} TrailingTokens(ts: seq<Token>)
    requires WellFormed(ts)
    ensures IsTrailing(Gap, Render(ts)) == NextIsClose(ts)
  {
    if ts == [] {
    } else {
      var (t, rest) := (ts[0], Render(ts[1..]));
      TrailingTokens(ts[1..]);
      if IsComment(t) {
        TrailingComment(t, rest);
      } else if t.Space? {
        assert (RenderToken(t) + rest)[1..] == rest;
      }
    }
  }

  lemma CleaningComment(m: Mode, t: Token, ts: seq<Token>)
    requires Resumable(m) && ValidToken(t) && IsComment(t) && Lex(m, Render(ts)) == Render(Cleaned(ts))
    requires t.LineComment? && ts != [] ==> ts[0].Space? && IsNL(ts[0].b)
    ensures Lex(m, Render([t] + ts)) == Render(Cleaned([t] + ts))
  {
    var (n, rest, done) := (|RenderToken(t)|, Render(ts), Cleaned(ts));
    calc {
      Lex(m, Render([t] + ts));
      { RenderCons(t, ts); }
      Lex(m, RenderToken(t) + rest);
      { LexComment(m, t, rest); }
      Spaces(n) + Lex(m, rest);
      { RenderBlanks(n); }
      Render(Blanks(n)) + Render(done);
      { RenderConcat(Blanks(n), done); }
      Render(Blanks(n) + done);
      { assert ([t] + ts)[1..] == ts; }
      Render(Cleaned([t] + ts));
    }
  }

  lemma CleaningComma(m: Mode, ts: seq<Token>)
    requires Resumable(m) && WellFormed(ts) && Lex(Gap, Render(ts)) == Render(Cleaned(ts))
    ensures Lex(m, Render([Comma] + ts)) == Render(Cleaned([Comma] + ts))
  {
    var (t', rest, done) := (if NextIsClose(ts) then Space(SPACE) else Comma, Render(ts), Cleaned(ts));
    calc {
      Lex(m, Render([Comma] + ts));
      { RenderCons(Comma, ts); }
      Lex(m, [COMMA] + rest);
      { TrailingTokens(ts); assert ([COMMA] + rest)[1..] == rest; }
      RenderToken(t') + Lex(Gap, rest);
      { RenderCons(t', done); }
      Render([t'] + done);
      { assert ([Comma] + ts)[1..] == ts; }
      Render(Cleaned([Comma] + ts));
    }
  }

  lemma CleaningOther(m: Mode, t: Token, ts: seq<Token>)
    requires Resumable(m) && ValidToken(t) && !IsComment(t) && !t.Comma?
    requires Lex(if t.Space? then m else Code, Render(ts)) == Render(Cleaned(ts))
    ensures Lex(m, Render([t] + ts)) == Render(Cleaned([t] + ts))
  {
    var (rest, done) := (Render(ts), Cleaned(ts));
    calc {
      Lex(m, Render([t] + ts));
      { RenderCons(t, ts); }
      Lex(m, RenderToken(t) + rest);
      { if t.Quoted? { LexQuoted(m, t.items, rest); } else { LexKept(m, t, rest); } }
      RenderToken(t) + Render(done);
      { RenderCons(t, done); }
      Render([t] + done);
      { assert ([t] + ts)[1..] == ts; }
      Render(Cleaned([t] + ts));
    }
  }

  /**
  The filter turns the comments and the trailing commas of a well-formed text into spaces and
  leaves every other byte, string literals included, as it was.
  */
  lemma {:induction false} LexIsCleaning(m: Mode, ts: seq<Token>)
    requires Resumable(m) && WellFormed(ts)
    ensures Lex(m, Render(ts)) == Render(Cleaned(ts))
    decreases |ts|
  {
    if ts == [] {
    } else {
      var (t, rest) := (ts[0], ts[1..]);
      assert ts == [t] + rest;
      if IsComment(t) {
        LexIsCleaning(m, rest);
        CleaningComment(m, t, rest);
      } else if t.Comma? {
        LexIsCleaning(Gap, rest);
        CleaningComma(m, rest);
      } else {
        LexIsCleaning(if t.Space? then m else Code, rest);
        CleaningOther(m, t, rest);
      }
    }
  }

  // ---------- stars in block comments ----------

  /** A comment body that does not contain the closing mark. */
  predicate Unclosed(body: seq<byte>) {
    forall k :: 0 <= k < |body| - 1 && body[k] == STAR ==> body[k + 1] != SLASH
  }

  /** The first star that is not padded lets the byte after it through. */
  lemma {:induction false} UnpaddedStarLeaks(m: Mode, body: seq<byte>, rest: seq<byte>) returns (k: nat)
    requires Resumable(m) && Unclosed(body) && !StarsPadded(body)
    ensures k < |body| + 2 && Lex(Block(m), body + ([STAR, SLASH] + rest))[k] != SPACE
  {
    var tail := [STAR, SLASH] + rest;
    if body[0] != STAR {
      assert forall i :: 0 <= i < |body[1..]| ==> body[1..][i] == body[i + 1];
      k := UnpaddedStarLeaks(m, body[1..], rest);
      assert (body + tail)[1..] == body[1..] + tail;
      k := k + 1;
    } else if |body| == 1 || body[1] != SPACE {
      k := 1;
    } else {
      assert forall i :: 0 <= i < |body[2..]| ==> body[2..][i] == body[i + 2];
      k := UnpaddedStarLeaks(m, body[2..], rest);
      assert (body + tail)[2..] == body[2..] + tail;
      k := k + 2;
    }
  }

  /**
  A block comment is blanked, and the text after it read afresh, if and only if every star in
  its body is followed by a space in its body: the scanner never looks at the byte after a star.
  */
  lemma BlockCommentIsBlankedIff(m: Mode, body: seq<byte>, rest: seq<byte>)
    requires Resumable(m) && Unclosed(body)
    ensures Lex(m, [SLASH, STAR] + (body + ([STAR, SLASH] + rest))) == Spaces(|body| + 4) + Lex(m, rest)
       <==> StarsPadded(body)
  {
    if StarsPadded(body) {
      LexBlockComment(m, body, rest);
    } else {
      var inner := body + ([STAR, SLASH] + rest);
      var k := UnpaddedStarLeaks(m, body, rest);
      CommentOpens(m, STAR, inner);
      assert Lex(m, [SLASH, STAR] + inner)[k + 2] != SPACE;
    }
  }

  // ---------- filtering twice ----------

  lemma {:induction false} CleanedBlanks(n: nat, ts: seq<Token>)
    ensures Cleaned(Blanks(n) + ts) == Blanks(n) + Cleaned(ts)
  {
    if n == 0 {
      assert Blanks(n) + ts == ts;
    } else {
      calc {
        Cleaned(Blanks(n) + ts);
        { assert Blanks(n) + ts == [Space(SPACE)] + (Blanks(n - 1) + ts); }
        Cleaned([Space(SPACE)] + (Blanks(n - 1) + ts));
        { assert ([Space(SPACE)] + (Blanks(n - 1) + ts))[1..] == Blanks(n - 1) + ts; }
        [Space(SPACE)] + Cleaned(Blanks(n - 1) + ts);
        { CleanedBlanks(n - 1, ts); }
        [Space(SPACE)] + (Blanks(n - 1) + Cleaned(ts));
        Blanks(n) + Cleaned(ts);
      }
    }
  }

  lemma {:induction false} BlanksInFront(n: nat, ts: seq<Token>)
    ensures NextIsClose(Blanks(n) + ts) == NextIsClose(ts)
    ensures WellFormed(ts) ==> WellFormed(Blanks(n) + ts)
  {
    if n == 0 {
      assert Blanks(n) + ts == ts;
    } else {
      BlanksInFront(n - 1, ts);
      assert (Blanks(n) + ts)[1..] == Blanks(n - 1) + ts;
    }
  }

  lemma {:induction false} CleanedIsWellFormed(ts: seq<Token>)
    requires WellFormed(ts)
    ensures WellFormed(Cleaned(ts))
  {
    if ts == [] {
    } else {
      CleanedIsWellFormed(ts[1..]);
      match ts[0]
      case LineComment(body) => BlanksInFront(|body| + 2, Cleaned(ts[1..]));
      case BlockComment(body) => BlanksInFront(|body| + 4, Cleaned(ts[1..]));
      case _ => assert Cleaned(ts)[1..] == Cleaned(ts[1..]);
    }
  }

  /** Whether the next significant token is a comma that is itself the last before a bracket. */
  predicate NextIsTrailingComma(ts: seq<Token>) {
    ts != [] &&
    ((ts[0].Comma? && NextIsClose(ts[1..])) ||
     ((ts[0].Space? || IsComment(ts[0])) && NextIsTrailingComma(ts[1..])))
  }

  /** Some comma is separated only by space and comments from a trailing comma. */
  predicate HasStackedCommas(ts: seq<Token>) {
    ts != [] && ((ts[0].Comma? && NextIsTrailingComma(ts[1..])) || HasStackedCommas(ts[1..]))
  }

  lemma {:induction false} CleaningExposes(ts: seq<Token>)
    ensures NextIsClose(Cleaned(ts)) == (NextIsClose(ts) || NextIsTrailingComma(ts))
    ensures NextIsClose(ts) ==> !NextIsTrailingComma(ts)
  {
    if ts == [] {
    } else {
      CleaningExposes(ts[1..]);
      match ts[0]
      case LineComment(body) => BlanksInFront(|body| + 2, Cleaned(ts[1..]));
      case BlockComment(body) => BlanksInFront(|body| + 4, Cleaned(ts[1..]));
      case Comma =>
        assert Cleaned(ts)[1..] == Cleaned(ts[1..]);
        if NextIsClose(ts[1..]) {
          assert NextIsClose(Cleaned(ts));
        }
      case _ => assert Cleaned(ts)[1..] == Cleaned(ts[1..]);
    }
  }

  lemma {:induction false} CleaningTwice(ts: seq<Token>)
    ensures Render(Cleaned(Cleaned(ts))) == Render(Cleaned(ts)) <==> !HasStackedCommas(ts)
  {
    if ts == [] {
    } else {
      var once := Cleaned(ts[1..]);
      CleaningTwice(ts[1..]);
      if IsComment(ts[0]) {
        var n := if ts[0].LineComment? then |ts[0].body| + 2 else |ts[0].body| + 4;
        CleanedBlanks(n, once);
        RenderConcat(Blanks(n), once);
        RenderConcat(Blanks(n), Cleaned(once));
        SamePrefix(Render(Blanks(n)), Render(once), Render(Cleaned(once)));
      } else {
        CleaningExposes(ts[1..]);
        var (first, again) := (Cleaned(ts)[0], Cleaned(Cleaned(ts))[0]);
        assert Cleaned(ts)[1..] == once;
        assert Cleaned(Cleaned(ts))[1..] == Cleaned(once);
        if first == again {
          SamePrefix(RenderToken(first), Render(once), Render(Cleaned(once)));
        } else {
          assert RenderToken(first)[0] != RenderToken(again)[0];
          assert Render(Cleaned(ts))[0] != Render(Cleaned(Cleaned(ts)))[0];
        }
      }
    }
  }

  lemma SamePrefix(p: seq<byte>, a: seq<byte>, b: seq<byte>)
    ensures p + a == p + b <==> a == b
  {
    assert (p + a)[|p|..] == a && (p + b)[|p|..] == b;
  }

  /** Filtering a well-formed text twice is filtering it once, if and only if no commas are stacked. */
  lemma FilterIsIdempotentIff(ts: seq<Token>)
    requires WellFormed(ts)
    ensures Lex(Code, Lex(Code, Render(ts))) == Lex(Code, Render(ts)) <==> !HasStackedCommas(ts)
  {
    LexIsCleaning(Code, ts);
    CleanedIsWellFormed(ts);
    LexIsCleaning(Code, Cleaned(ts));
    CleaningTwice(ts);
  }

  // ---------- plain JSON ----------

  /**
  The syntax of RFC 8259 (sections 2, 4, 5 and 7) with its whitespace. A scalar is any run of
  plain bytes, which covers every number and literal name, and a group covers arrays and objects.
  */
  datatype Value =
    | Scalar(bytes: seq<byte>)
    | Text(items: seq<StrItem>)
    | Group(isObject: bool, pad: seq<byte>, elements: seq<Element>)

  datatype Name = Unnamed | Named(items: seq<StrItem>, beforeColon: seq<byte>, afterColon: seq<byte>)

  datatype Element = Element(before: seq<byte>, name: Name, value: Value, after: seq<byte>)

  /** Space, tab, line feed and carriage return. */
  predicate Blank(ws: seq<byte>) {
    forall b :: b in ws ==> b == 32 || b == 9 || b == 10 || b == 13
  }

  predicate ValidText(items: seq<StrItem>) {
    forall x :: x in items ==> ValidItem(x)
  }

  /** Anything but space, quotes, commas, slashes and closing brackets. */
  predicate IsScalarByte(b: byte) {
    b !in {9, 10, 13, 32, 34, 44, 47, 93, 125}
  }

  predicate ValidValue(v: Value) {
    match v
    case Scalar(bytes) => bytes != [] && forall b :: b in bytes ==> IsScalarByte(b)
    case Text(items) => ValidText(items)
    case Group(_, pad, elements) => Blank(pad) && forall x :: x in elements ==> ValidElement(x)
  }

  predicate ValidElement(x: Element) {
    && Blank(x.before) && Blank(x.after) && ValidValue(x.value)
    && (x.name.Named? ==> ValidText(x.name.items) && Blank(x.name.beforeColon) && Blank(x.name.afterColon))
  }

  function WsTokens(ws: seq<byte>): seq<Token> {
    seq(|ws|, k requires 0 <= k < |ws| => Space(ws[k]))
  }

  function ValueTokens(v: Value): seq<Token> {
    match v
    case Scalar(bytes) => seq(|bytes|, k requires 0 <= k < |bytes| => Plain(bytes[k]))
    case Text(items) => [Quoted(items)]
    case Group(isObject, pad, elements) =>
      [Plain(if isObject then 123 else 91)]
      + (if elements == [] then WsTokens(pad) else ElementsTokens(elements))
      + [Close(if isObject then 125 else 93)]
  }

  function NameTokens(n: Name): seq<Token> {
    match n
    case Unnamed => []
    case Named(items, before, after) => [Quoted(items)] + WsTokens(before) + [Plain(58)] + WsTokens(after)
  }

  function ElementTokens(x: Element): seq<Token> {
    WsTokens(x.before) + NameTokens(x.name) + ValueTokens(x.value) + WsTokens(x.after)
  }

  function ElementsTokens(xs: seq<Element>): seq<Token>
    requires xs != []
  {
    if |xs| == 1 then ElementTokens(xs[0]) else ElementTokens(xs[0]) + [Comma] + ElementsTokens(xs[1..])
  }

  /** The first significant token exists and starts a value. */
  predicate Opens(ts: seq<Token>) {
    ts != [] && (if ts[0].Space? then Opens(ts[1..]) else ts[0].Plain? || ts[0].Quoted?)
  }

  /** No comments, and after every comma a value starts. */
  predicate Settled(ts: seq<Token>) {
    ts != [] ==>
    && ValidToken(ts[0]) && !IsComment(ts[0])
    && (ts[0].Comma? ==> Opens(ts[1..])) && Settled(ts[1..])
  }

  lemma {:induction false} OpensConcat(a: seq<Token>, b: seq<Token>)
    requires Opens(a) || ((forall t :: t in a ==> t.Space?) && Opens(b))
    ensures Opens(a + b)
  {
    if a == [] {
      assert a + b == b;
    } else {
      assert (a + b)[1..] == a[1..] + b;
      if a[0].Space? {
        OpensConcat(a[1..], b);
      }
    }
  }

  lemma {:induction false} SettledConcat(a: seq<Token>, b: seq<Token>)
    requires Settled(a) && Settled(b)
    ensures Settled(a + b)
  {
    if a == [] {
      assert a + b == b;
    } else {
      assert (a + b)[1..] == a[1..] + b;
      SettledConcat(a[1..], b);
      if a[0].Comma? {
        OpensConcat(a[1..], b);
      }
    }
  }

  lemma {:induction false} SettledSimple(ts: seq<Token>)
    requires forall t :: t in ts ==> ValidToken(t) && !IsComment(t) && !t.Comma?
    ensures Settled(ts)
  {
    if ts != [] {
      SettledSimple(ts[1..]);
    }
  }

  lemma BlankIsSpace(ws: seq<byte>)
    requires Blank(ws)
    ensures forall t :: t in WsTokens(ws) ==> t.Space? && ValidToken(t)
  {
    forall k | 0 <= k < |ws|
      ensures IsWS(ws[k])
    {
      assert ws[k] in ws;
    }
  }

  lemma ScalarIsPlain(bytes: seq<byte>)
    requires forall b :: b in bytes ==> IsScalarByte(b)
    ensures forall t :: t in ValueTokens(Scalar(bytes)) ==> t.Plain? && ValidToken(t)
  {
    forall k | 0 <= k < |bytes|
      ensures IsPlain(bytes[k])
    {
      assert bytes[k] in bytes;
    }
  }

  lemma {:induction false} ValueIsSettled(v: Value)
    requires ValidValue(v)
    ensures Settled(ValueTokens(v)) && Opens(ValueTokens(v))
    decreases v, 0
  {
    match v
    case Scalar(bytes) =>
      ScalarIsPlain(bytes);
      SettledSimple(ValueTokens(v));
    case Text(items) =>
    case Group(isObject, pad, elements) =>
      var (open, close) := ([Plain(if isObject then 123 else 91)], [Close(if isObject then 125 else 93)]);
      SettledSimple(open);
      SettledSimple(close);
      var inside := if elements == [] then WsTokens(pad) else ElementsTokens(elements);
      if elements == [] {
        BlankIsSpace(pad);
        SettledSimple(inside);
      } else {
        ElementsAreSettled(elements);
      }
      SettledConcat(open, inside);
      SettledConcat(open + inside, close);
      OpensConcat(open, inside);
      OpensConcat(open + inside, close);
  }

  /** Space, a name if there is one, a value and space again. */
  lemma PartsAreSettled(lead: seq<Token>, name: seq<Token>, value: seq<Token>, end: seq<Token>)
    requires Settled(lead) && Settled(name) && Settled(value) && Settled(end)
    ensures Settled(lead + name + value + end)
  {
    SettledConcat(lead, name);
    SettledConcat(lead + name, value);
    SettledConcat(lead + name + value, end);
  }

  lemma PartsOpen(lead: seq<Token>, name: seq<Token>, value: seq<Token>, end: seq<Token>)
    requires (forall t :: t in lead ==> t.Space?) && (name == [] || Opens(name)) && Opens(value)
    ensures Opens(lead + name + value + end)
  {
    if name == [] {
      assert lead + name == lead;
    } else {
      OpensConcat(lead, name);
    }
    OpensConcat(lead + name, value);
    OpensConcat(lead + name + value, end);
  }

  lemma {:induction false} ElementIsSettled(x: Element)
    requires ValidElement(x)
    ensures Settled(ElementTokens(x)) && Opens(ElementTokens(x))
    decreases x, 1
  {
    ValueIsSettled(x.value);
    BlankIsSpace(x.before);
    BlankIsSpace(x.after);
    if x.name.Named? {
      BlankIsSpace(x.name.beforeColon);
      BlankIsSpace(x.name.afterColon);
    }
    SettledSimple(WsTokens(x.before));
    SettledSimple(NameTokens(x.name));
    SettledSimple(WsTokens(x.after));
    PartsAreSettled(WsTokens(x.before), NameTokens(x.name), ValueTokens(x.value), WsTokens(x.after));
    PartsOpen(WsTokens(x.before), NameTokens(x.name), ValueTokens(x.value), WsTokens(x.after));
  }

  lemma {:induction false} ElementsAreSettled(xs: seq<Element>)
    requires xs != [] && forall x :: x in xs ==> ValidElement(x)
    ensures Settled(ElementsTokens(xs)) && Opens(ElementsTokens(xs))
    decreases xs, 2
  {
    ElementIsSettled(xs[0]);
    if |xs| > 1 {
      ElementsAreSettled(xs[1..]);
      var (first, rest) := (ElementTokens(xs[0]), ElementsTokens(xs[1..]));
      assert ([Comma] + rest)[1..] == rest;
      SettledConcat(first, [Comma] + rest);
      OpensConcat(first, [Comma] + rest);
      assert first + [Comma] + rest == first + ([Comma] + rest);
    }
  }

  lemma {:induction false} OpensIsNotClose(ts: seq<Token>)
    requires Opens(ts)
    ensures !NextIsClose(ts)
  {
    if ts[0].Space? {
      OpensIsNotClose(ts[1..]);
    }
  }

  lemma {:induction false} SettledIsClean(ts: seq<Token>)
    requires Settled(ts)
    ensures WellFormed(ts) && Cleaned(ts) == ts
  {
    if ts != [] {
      SettledIsClean(ts[1..]);
      if ts[0].Comma? {
        OpensIsNotClose(ts[1..]);
      }
    }
  }

  /** A JSON text, with whitespace around its value, passes through unchanged. */
  lemma JsonIsUntouched(x: Element)
    requires ValidElement(x) && x.name.Unnamed?
    ensures Lex(Code, Render(ElementTokens(x))) == Render(ElementTokens(x))
  {
    ElementIsSettled(x);
    SettledIsClean(ElementTokens(x));
    LexIsCleaning(Code, ElementTokens(x));
  }
}
