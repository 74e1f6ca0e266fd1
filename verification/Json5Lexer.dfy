/**
The text filter of common/json5/json5.go, as a pure lexer: a transducer that reads one byte at a
time and writes as many bytes as it reads, blanking comments and the commas before a closing
bracket.
*/
module Json5Lexer {

  newtype byte = x: int | 0 <= x < 256

  const QUOTE: byte := 34
  const BACKSLASH: byte := 92
  const SLASH: byte := 47
  const STAR: byte := 42
  const COMMA: byte := 44
  const CLOSE_BRACE: byte := 125
  const CLOSE_BRACKET: byte := 93
  const SPACE: byte := 32
  const TAB: byte := 9
  const LF: byte := 10
  const CR: byte := 13

  predicate IsNL(c: byte) { c == LF || c == CR }

  predicate IsWS(c: byte) { c == SPACE || c == TAB || IsNL(c) }

  predicate IsClose(c: byte) { c == CLOSE_BRACE || c == CLOSE_BRACKET }

  /**
  Where the lexer is: in plain text, after a comma and before the next significant byte, inside
  a string, or inside a comment (`after` is the place to return to).
  */
  datatype Mode = Code | Gap | Str | Line(after: Mode) | Block(after: Mode)

  /** The places a comment can interrupt. */
  predicate Resumable(m: Mode) { m.Code? || m.Gap? }

  predicate WellPlaced(m: Mode) {
    match m
    case Line(after) => Resumable(after)
    case Block(after) => Resumable(after)
    case _ => true
  }

  /** Whether a comma followed by `s` is the last one before a closing bracket. */
  predicate IsTrailing(m: Mode, s: seq<byte>)
    requires m == Gap || m == Line(Gap) || m == Block(Gap)
    decreases |s|, if m == Line(Gap) then 1 else 0
  {
    if s == [] then false
    else match m
      case Gap =>
        if IsClose(s[0]) then true
        else if s[0] == SLASH then
          if |s| == 1 then false
          else if s[1] == SLASH then IsTrailing(Line(Gap), s[2..])
          else if s[1] == STAR then IsTrailing(Block(Gap), s[2..])
          else IsTrailing(Gap, s[2..])
        else IsWS(s[0]) && IsTrailing(Gap, s[1..])
      case Line(_) =>
        if IsNL(s[0]) then IsTrailing(Gap, s) else IsTrailing(Line(Gap), s[1..])
      case Block(_) =>
        if s[0] != STAR then IsTrailing(Block(Gap), s[1..])
        else if |s| == 1 then false
        else if s[1] == SLASH then IsTrailing(Gap, s[2..])
        else IsTrailing(Block(Gap), s[2..])
  }

  function Lex(m: Mode, s: seq<byte>): (out: seq<byte>)
    requires WellPlaced(m)
    ensures |out| == |s|
    decreases |s|, match m { case Gap => 1 case Line(_) => 2 case _ => 0 }
  {
    if s == [] then []
    else match m
      case Code =>
        if s[0] == QUOTE then [QUOTE] + Lex(Str, s[1..])
        else if s[0] == SLASH && |s| > 1 && s[1] == SLASH then [SPACE, SPACE] + Lex(Line(Code), s[2..])
        else if s[0] == SLASH && |s| > 1 && s[1] == STAR then [SPACE, SPACE] + Lex(Block(Code), s[2..])
        else if s[0] == COMMA then [if IsTrailing(Gap, s[1..]) then SPACE else COMMA] + Lex(Gap, s[1..])
        else [s[0]] + Lex(Code, s[1..])
      case Gap =>
        if IsWS(s[0]) then [s[0]] + Lex(Gap, s[1..])
        else if s[0] == SLASH then
          if |s| == 1 then s
          else if s[1] == SLASH then [SPACE, SPACE] + Lex(Line(Gap), s[2..])
          else if s[1] == STAR then [SPACE, SPACE] + Lex(Block(Gap), s[2..])
          else s[..2] + Lex(Gap, s[2..])
        else Lex(Code, s)
      case Str =>
        if s[0] == QUOTE then [QUOTE] + Lex(Code, s[1..])
        else if s[0] == BACKSLASH && |s| > 1 then s[..2] + Lex(Str, s[2..])
        else [s[0]] + Lex(Str, s[1..])
      case Line(after) =>
        if IsNL(s[0]) then Lex(after, s) else [SPACE] + Lex(m, s[1..])
      case Block(after) =>
        if s[0] != STAR then [SPACE] + Lex(m, s[1..])
        else if |s| == 1 then [SPACE]
        else if s[1] == SLASH then [SPACE, SPACE] + Lex(after, s[2..])
        else [SPACE, s[1]] + Lex(m, s[2..])
  }

  /** On any input, a byte is kept or becomes a space. */
  lemma {:induction false} LexOnlyBlanks(m: Mode, s: seq<byte>, k: nat)
    requires WellPlaced(m) && k < |s|
    ensures Lex(m, s)[k] == s[k] || Lex(m, s)[k] == SPACE
    decreases |s|, match m { case Gap => 1 case Line(_) => 2 case _ => 0 }
  {
    match m
    case Code =>
      if s[0] == SLASH && |s| > 1 && s[1] == SLASH {
        if k >= 2 { LexOnlyBlanks(Line(Code), s[2..], k - 2); }
      } else if s[0] == SLASH && |s| > 1 && s[1] == STAR {
        if k >= 2 { LexOnlyBlanks(Block(Code), s[2..], k - 2); }
      } else if k >= 1 {
        LexOnlyBlanks(if s[0] == QUOTE then Str else if s[0] == COMMA then Gap else Code, s[1..], k - 1);
      }
    case Gap =>
      if IsWS(s[0]) {
        if k >= 1 { LexOnlyBlanks(Gap, s[1..], k - 1); }
      } else if s[0] != SLASH {
        LexOnlyBlanks(Code, s, k);
      } else if k >= 2 {
        LexOnlyBlanks(if s[1] == SLASH then Line(Gap) else if s[1] == STAR then Block(Gap) else Gap, s[2..], k - 2);
      }
    case Str =>
      if s[0] == BACKSLASH && |s| > 1 {
        if k >= 2 { LexOnlyBlanks(Str, s[2..], k - 2); }
      } else if k >= 1 {
        LexOnlyBlanks(if s[0] == QUOTE then Code else Str, s[1..], k - 1);
      }
    case Line(after) =>
      if IsNL(s[0]) {
        LexOnlyBlanks(after, s, k);
      } else if k >= 1 {
        LexOnlyBlanks(m, s[1..], k - 1);
      }
    case Block(after) =>
      if s[0] != STAR || |s| == 1 {
        if k >= 1 { LexOnlyBlanks(m, s[1..], k - 1); }
      } else if k >= 2 {
        LexOnlyBlanks(if s[1] == SLASH then after else m, s[2..], k - 2);
      }
  }
}
