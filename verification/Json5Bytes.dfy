/** The rules of the filter by byte values, as ASCII numbers them. */
module Json5Bytes {
  import opened Json5Lexer
  import opened Json5Meaning

  predicate IsWhite(b: byte) {
    b == 9 || b == 10 || b == 13 || b == 32
  }

  /** What stands between two quotes: a backslash takes the next byte with it. */
  predicate IsStringBody(s: seq<byte>) {
    s == [] ||
    (if s[0] == 92 then |s| > 1 && IsStringBody(s[2..]) else s[0] != 34 && IsStringBody(s[1..]))
  }

  lemma {:induction false} GapKeepsWhite(ws: seq<byte>, rest: seq<byte>)
    requires forall b :: b in ws ==> IsWhite(b)
    ensures Lex(Gap, ws + rest) == ws + Lex(Gap, rest) && IsTrailing(Gap, ws + rest) == IsTrailing(Gap, rest)
  {
    if ws == [] {
      assert ws + rest == rest;
    } else {
      assert ws[0] in ws && (ws + rest)[1..] == ws[1..] + rest;
      GapKeepsWhite(ws[1..], rest);
      Assoc([ws[0]], ws[1..], Lex(Gap, rest));
      assert [ws[0]] + ws[1..] == ws;
    }
  }

  /** A comma goes, and only it, when space and then a closing bracket follow. */
  lemma TrailingCommaGoes(ws: seq<byte>, rest: seq<byte>)
    requires (forall b :: b in ws ==> IsWhite(b)) && rest != [] && (rest[0] == 125 || rest[0] == 93)
    ensures Lex(Code, [44] + ws + rest) == [32] + (ws + Lex(Code, rest))
  {
    GapKeepsWhite(ws, rest);
    assert ([44] + ws + rest)[1..] == ws + rest;
  }

  /** It stays when space and then anything but a closing bracket or a slash follow, or nothing. */
  lemma OtherCommaStays(ws: seq<byte>, rest: seq<byte>)
    requires forall b :: b in ws ==> IsWhite(b)
    requires rest != [] ==> !IsWhite(rest[0]) && rest[0] != 125 && rest[0] != 93 && rest[0] != 47
    ensures Lex(Code, [44] + ws + rest) == [44] + (ws + Lex(Code, rest))
  {
    GapKeepsWhite(ws, rest);
    assert ([44] + ws + rest)[1..] == ws + rest;
  }

  /** A line comment goes up to the line feed or carriage return, which stays. */
  lemma LineCommentGoes(body: seq<byte>, rest: seq<byte>)
    requires (forall b :: b in body ==> b != 10 && b != 13) && (rest != [] ==> rest[0] == 10 || rest[0] == 13)
    ensures Lex(Code, [47, 47] + (body + rest)) == seq(|body| + 2, _ => 32) + Lex(Code, rest)
  {
    LexLineComment(Code, body, rest);
    assert Spaces(|body| + 2) == seq(|body| + 2, _ => 32);
  }

  /** A block comment without stars in its body goes with its marks. */
  lemma BlockCommentGoes(body: seq<byte>, rest: seq<byte>)
    requires forall b :: b in body ==> b != 42
    ensures Lex(Code, [47, 42] + (body + ([42, 47] + rest))) == seq(|body| + 4, _ => 32) + Lex(Code, rest)
  {
    assert forall k :: 0 <= k < |body| ==> body[k] in body;
    LexBlockComment(Code, body, rest);
    assert Spaces(|body| + 4) == seq(|body| + 4, _ => 32);
  }

  lemma {:induction false} StringRuns(body: seq<byte>, rest: seq<byte>)
    requires IsStringBody(body)
    ensures Lex(Str, body + ([34] + rest)) == body + ([34] + Lex(Code, rest))
  {
    if body == [] {
      assert body + ([34] + rest) == [34] + rest;
      assert ([34] + rest)[1..] == rest;
    } else {
      var n := if body[0] == 92 then 2 else 1;
      var s := body + ([34] + rest);
      StringRuns(body[n..], rest);
      assert s[n..] == body[n..] + ([34] + rest) && s[..n] == body[..n];
      Assoc(body[..n], body[n..], [34] + Lex(Code, rest));
      assert body[..n] + body[n..] == body;
    }
  }

  /** A string literal stays byte for byte. */
  lemma StringStays(body: seq<byte>, rest: seq<byte>)
    requires IsStringBody(body)
    ensures Lex(Code, [34] + (body + ([34] + rest))) == [34] + (body + ([34] + Lex(Code, rest)))
  {
    StringRuns(body, rest);
    assert ([34] + (body + ([34] + rest)))[1..] == body + ([34] + rest);
  }

  /** Any other byte stays: all but quotes and commas, and a slash that opens no comment. */
  lemma OtherByteStays(b: byte, rest: seq<byte>)
    requires b != 34 && b != 44 && (b == 47 && rest != [] ==> rest[0] != 47 && rest[0] != 42)
    ensures Lex(Code, [b] + rest) == [b] + Lex(Code, rest)
  {
    assert ([b] + rest)[1..] == rest;
  }
}
