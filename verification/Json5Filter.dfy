/** The in-place scanner of common/json5/json5.go, proved against the pure lexer. */
module Json5Filter {
  import opened Json5Lexer

  /**
  How far a scan has come: `text[lo..i]` is written, and lexing `text[i..]` in mode `m` gives
  what is left to write of lexing `start` in mode `m0`.
  */
  ghost predicate Written(m0: Mode, start: seq<byte>, text: seq<byte>, lo: nat, i: nat, m: Mode) {
    && Resumable(m0) && WellPlaced(m) && lo <= i <= |text|
    && Lex(m0, start) == text[lo..i] + Lex(m, text[i..])
    && (m0.Gap? ==> (m == Gap || m == Line(Gap) || m == Block(Gap)) && IsTrailing(Gap, start) == IsTrailing(m, text[i..]))
  }

  lemma LineStep(m0: Mode, start: seq<byte>, text: seq<byte>, lo: nat, i: nat)
    requires Written(m0, start, text, lo, i, Line(m0)) && i < |text| && !IsNL(text[i])
    ensures Written(m0, start, text[i := SPACE], lo, i + 1, Line(m0))
  {
    var text' := text[i := SPACE];
    assert text[i..][1..] == text'[i + 1..];
    assert text'[lo..i + 1] == text[lo..i] + [SPACE];
  }

  lemma BlockStep(m0: Mode, start: seq<byte>, text: seq<byte>, lo: nat, i: nat)
    requires Written(m0, start, text, lo, i, Block(m0)) && i < |text| && (text[i] != STAR || i + 1 == |text|)
    ensures Written(m0, start, text[i := SPACE], lo, i + 1, Block(m0))
  {
    var text' := text[i := SPACE];
    assert text[i..][1..] == text'[i + 1..];
    assert text'[lo..i + 1] == text[lo..i] + [SPACE];
  }

  lemma BlockSkip(m0: Mode, start: seq<byte>, text: seq<byte>, lo: nat, i: nat)
    requires Written(m0, start, text, lo, i, Block(m0)) && i + 1 < |text| && text[i] == STAR && text[i + 1] != SLASH
    ensures Written(m0, start, text[i := SPACE], lo, i + 2, Block(m0))
  {
    var text' := text[i := SPACE];
    assert text[i..][2..] == text'[i + 2..];
    assert text'[lo..i + 2] == text[lo..i] + [SPACE, text[i + 1]];
  }

  /** The closing slash is blanked but not passed; as a space it changes nothing for the caller. */
  lemma BlockEnd(m0: Mode, start: seq<byte>, text: seq<byte>, lo: nat, i: nat)
    requires Written(m0, start, text, lo, i, Block(m0)) && i + 1 < |text| && text[i] == STAR && text[i + 1] == SLASH
    ensures Written(m0, start, text[i := SPACE][i + 1 := SPACE], lo, i + 1, m0)
  {
    var text' := text[i := SPACE][i + 1 := SPACE];
    assert text[i..][2..] == text'[i + 1..][1..];
    assert text'[lo..i + 1] == text[lo..i] + [SPACE];
    assert [SPACE, SPACE] + Lex(m0, text[i..][2..]) == [SPACE] + ([SPACE] + Lex(m0, text[i..][2..]));
  }

  predicate StartsComment(text: seq<byte>, i: nat) {
    i < |text| && (text[i] == SLASH || text[i] == STAR)
  }

  /** The scan position may run past the end of the text. */
  function Clamp(i: nat, n: nat): nat {
    if i < n then i else n
  }

  /** The two slashes of a line comment, or the slash and star of a block comment, once blanked. */
  lemma Opened(m: Mode, start: seq<byte>, text: seq<byte>, lo: nat)
    requires Resumable(m) && lo + 1 < |text| && |start| == |text| - lo && start[0] == SLASH
    requires start[1] == SLASH || start[1] == STAR
    requires text[lo] == SPACE && text[lo + 1..] == [if start[1] == STAR then SPACE else SLASH] + start[2..]
    ensures Written(m, start, text, lo, lo + 1, if start[1] == STAR then Block(m) else Line(m))
  {
    var m' := if start[1] == STAR then Block(m) else Line(m);
    assert text[lo + 1..][1..] == start[2..];
    assert text[lo..lo + 1] == [SPACE];
    assert [SPACE, SPACE] + Lex(m', start[2..]) == [SPACE] + ([SPACE] + Lex(m', start[2..]));
  }

  /** Blanks up to the end of the line. */
  method BlankLine(s: array<byte>, from: nat, ghost lo: nat, ghost m: Mode, ghost start: seq<byte>) returns (i: nat)
    requires Written(m, start, s[..], lo, from, Line(m))
    modifies s
    ensures from <= i <= s.Length && (i < s.Length ==> IsNL(s[i]))
    ensures Written(m, start, s[..], lo, i, Line(m))
    ensures s[..lo] == old(s[..lo])
  {
    i := from;
    while i < s.Length && !IsNL(s[i])
      invariant from <= i <= s.Length && Written(m, start, s[..], lo, i, Line(m))
      invariant s[..lo] == old(s[..lo])
    {
      ghost var was := s[..];
      LineStep(m, start, was, lo, i);
      s[i] := SPACE;
      assert s[..] == was[i := SPACE];
      i := i + 1;
    }
  }

  /** One byte of a block comment, or two when the first is a star; stops at the closing slash. */
  method BlankOne(s: array<byte>, at: nat, ghost lo: nat, ghost m: Mode, ghost start: seq<byte>)
    returns (i: nat, closed: bool)
    requires at < s.Length && Written(m, start, s[..], lo, at, Block(m))
    modifies s
    ensures at < i && s[..lo] == old(s[..lo])
    ensures closed ==> i < s.Length && s[i] == SPACE
    ensures Written(m, start, s[..], lo, Clamp(i, s.Length), if closed then m else Block(m))
  {
    i, closed := at, false;
    ghost var was := s[..];
    if s[i] != STAR {
      BlockStep(m, start, was, lo, i);
      s[i] := SPACE;
      assert s[..] == was[i := SPACE];
      i := i + 1;
      return;
    }
    s[i] := SPACE;
    assert s[..] == was[i := SPACE];
    i := i + 1;
    if i >= s.Length {
      BlockStep(m, start, was, lo, at);
    } else if s[i] == SLASH {
      BlockEnd(m, start, was, lo, at);
      s[i] := SPACE;
      assert s[..] == was[at := SPACE][at + 1 := SPACE];
      closed := true;
      return;
    } else {
      BlockSkip(m, start, was, lo, at);
    }
    i := i + 1;
  }

  /** Blanks up to the closing slash; a byte that follows a star is passed unread. */
  method BlankBlock(s: array<byte>, from: nat, ghost lo: nat, ghost m: Mode, ghost start: seq<byte>) returns (i: nat)
    requires Written(m, start, s[..], lo, from, Block(m))
    modifies s
    ensures from <= i && (i < s.Length ==> s[i] == SPACE)
    ensures Written(m, start, s[..], lo, Clamp(i, s.Length), m)
    ensures s[..lo] == old(s[..lo])
  {
    i := from;
    while i < s.Length
      invariant from <= i && Written(m, start, s[..], lo, Clamp(i, s.Length), Block(m))
      invariant s[..lo] == old(s[..lo])
    {
      var closed;
      i, closed := BlankOne(s, i, lo, m, start);
      if closed {
        return;
      }
    }
    BlockRunsOut(m, start, s[..], lo);
  }

  lemma BlockRunsOut(m: Mode, start: seq<byte>, text: seq<byte>, lo: nat)
    requires Written(m, start, text, lo, |text|, Block(m))
    ensures Written(m, start, text, lo, |text|, m)
  {
  }

  method ConsumeComment(s: array<byte>, from: nat, ghost m: Mode) returns (i: nat)
    requires 1 <= from <= s.Length && s[from - 1] == SLASH && Resumable(m)
    modifies s
    ensures s[..from - 1] == old(s[..from - 1])
    ensures !StartsComment(old(s[..]), from) ==> i == from && s[..] == old(s[..])
    ensures StartsComment(old(s[..]), from) ==>
              && from <= i && (i < s.Length ==> IsWS(s[i]))
              && Written(m, old(s[from - 1..]), s[..], from - 1, Clamp(i, s.Length), m)
  {
    i := from;
    ghost var start, lo := s[from - 1..], from - 1;
    if i < s.Length && s[i] == SLASH {
      s[i - 1] := SPACE;
      assert s[..][i..] == [SLASH] + start[2..];
      Opened(m, start, s[..], lo);
      i := BlankLine(s, i, lo, m, start);
    }
    if i < s.Length && s[i] == STAR {
      s[i - 1] := SPACE;
      s[i] := SPACE;
      assert s[..][i..] == [SPACE] + start[2..];
      Opened(m, start, s[..], lo);
      i := BlankBlock(s, i, lo, m, start);
    }
  }

  lemma GapStep(start: seq<byte>, text: seq<byte>, lo: nat, i: nat)
    requires Written(Gap, start, text, lo, i, Gap) && i < |text| && IsWS(text[i])
    ensures Written(Gap, start, text, lo, i + 1, Gap)
  {
    assert text[i..][1..] == text[i + 1..];
    assert text[lo..i + 1] == text[lo..i] + [text[i]];
  }

  /** A slash that opens no comment is passed together with the byte after it. */
  lemma StraySlash(start: seq<byte>, text: seq<byte>, lo: nat, i: nat)
    requires Written(Gap, start, text, lo, i, Gap) && i < |text| && text[i] == SLASH && !StartsComment(text, i + 1)
    ensures Written(Gap, start, text, lo, Clamp(i + 2, |text|), Gap)
  {
    if i + 2 <= |text| {
      assert text[i..][2..] == text[i + 2..] && text[i..][..2] == text[i..i + 2];
      assert text[lo..i + 2] == text[lo..i] + text[i..i + 2];
    } else {
      assert text[lo..] == text[lo..i] + text[i..];
    }
  }

  lemma PrefixOfPrefix(was: seq<byte>, now: seq<byte>, at: nat, k: nat)
    requires k <= at <= |was| == |now| && was[..at] == now[..at]
    ensures was[..k] == now[..k]
  {
    assert was[..k] == was[..at][..k];
  }

  /** Lexing a part of the text and then the rest of it. */
  lemma Chained(m: Mode, start: seq<byte>, was: seq<byte>, now: seq<byte>, lo: nat, at: nat, i: nat)
    requires Written(m, start, was, lo, at, m) && |was| == |now| && was[..at] == now[..at]
    requires Written(m, was[at..], now, at, i, m)
    ensures Written(m, start, now, lo, i, m)
  {
    assert was[lo..at] == was[..at][lo..] == now[lo..at];
    assert now[lo..i] == now[lo..at] + now[at..i];
  }

  lemma GapAfterComment(start: seq<byte>, was: seq<byte>, now: seq<byte>, lo: nat, at: nat, i: nat)
    requires Written(Gap, start, was, lo, at, Gap) && |was| == |now| && was[..at] == now[..at]
    requires Written(Gap, was[at..], now, at, Clamp(i, |now|), Gap) && (i < |now| ==> IsWS(now[i]))
    ensures Written(Gap, start, now, lo, Clamp(i + 1, |now|), Gap)
  {
    Chained(Gap, start, was, now, lo, at, Clamp(i, |now|));
    if i < |now| {
      GapStep(start, now, lo, i);
    }
  }

  /** A byte that is neither space nor a slash ends the gap after a comma. */
  lemma GapEnds(s: seq<byte>)
    requires s != [] ==> s[0] != SLASH && !IsWS(s[0])
    ensures Lex(Gap, s) == Lex(Code, s) && IsTrailing(Gap, s) == (s != [] && IsClose(s[0]))
  {
  }

  lemma CommaDone(start: seq<byte>, text: seq<byte>, j: nat, i: nat)
    requires start != [] && start[0] == COMMA && j < i <= |text|
    requires Written(Gap, start[1..], text, j + 1, i, Gap)
    requires i < |text| ==> text[i] != SLASH && !IsWS(text[i])
    requires text[j] == if i < |text| && IsClose(text[i]) then SPACE else COMMA
    ensures Written(Code, start, text, j, i, Code)
  {
    GapEnds(text[i..]);
    var rest := Lex(Gap, text[i..]);
    assert Lex(Code, start) == [text[j]] + Lex(Gap, start[1..]);
    assert text[j..i] + rest == [text[j]] + (text[j + 1..i] + rest);
  }

  /** Blanking the comma does not disturb what was written after it. */
  lemma CommaBlanked(start: seq<byte>, was: seq<byte>, j: nat, i: nat)
    requires j < |was| && Written(Gap, start, was, j + 1, i, Gap)
    ensures Written(Gap, start, was[j := SPACE], j + 1, i, Gap)
  {
    var now := was[j := SPACE];
    assert now[i..] == was[i..] && now[j + 1..i] == was[j + 1..i];
  }

  /** One comment, or one stray slash, met while looking past a comma. */
  method PassSlash(s: array<byte>, at: nat, ghost lo: nat, ghost start: seq<byte>) returns (i: nat)
    requires at < s.Length && s[at] == SLASH && Written(Gap, start, s[..], lo, at, Gap)
    modifies s
    ensures at < i && s[..lo] == old(s[..lo])
    ensures Written(Gap, start, s[..], lo, Clamp(i + 1, s.Length), Gap)
  {
    ghost var was := s[..];
    i := ConsumeComment(s, at + 1, Gap);
    if StartsComment(was, at + 1) {
      GapAfterComment(start, was, s[..], lo, at, i);
    } else {
      StraySlash(start, was, lo, at);
    }
    PrefixOfPrefix(was, s[..], at, lo);
  }

  /** One step past whitespace or a comment after a comma; stops at the end and at any other byte. */
  method LookPast(s: array<byte>, at: nat, ghost lo: nat, ghost start: seq<byte>) returns (i: nat, stopped: bool)
    requires lo <= at && Written(Gap, start, s[..], lo, Clamp(at, s.Length), Gap)
    modifies s
    ensures s[..lo] == old(s[..lo]) && Written(Gap, start, s[..], lo, Clamp(i, s.Length), Gap)
    ensures if stopped then i == at && s[..] == old(s[..]) && (i < s.Length ==> s[i] != SLASH && !IsWS(s[i]))
            else at < i && at < s.Length
  {
    i, stopped := at, true;
    if i >= s.Length {
      return;
    }
    if s[i] == SLASH {
      i := PassSlash(s, i, lo, start);
      i, stopped := i + 1, false;
    } else if IsWS(s[i]) {
      GapStep(start, s[..], lo, i);
      i, stopped := i + 1, false;
    }
  }

  /** Looks past whitespace and comments after the comma at `j`, and blanks it before a bracket. */
  method TrimComma(s: array<byte>, j: nat) returns (i: nat)
    requires j < s.Length && s[j] == COMMA
    modifies s
    ensures j < i && s[..j] == old(s[..j])
    ensures Written(Code, old(s[j..]), s[..], j, Clamp(i, s.Length), Code)
  {
    ghost var whole := s[..];
    ghost var start := whole[j + 1..];
    assert whole[j + 1..j + 1] == [];
    i := j + 1;
    var stopped := false;
    while !stopped
      invariant j < i && s[..j + 1] == whole[..j + 1]
      invariant Written(Gap, start, s[..], j + 1, Clamp(i, s.Length), Gap)
      invariant stopped && i < s.Length ==> s[i] != SLASH && !IsWS(s[i])
      decreases s.Length - i, !stopped
    {
      i, stopped := LookPast(s, i, j + 1, start);
    }
    ghost var was := s[..];
    PrefixOfPrefix(whole, was, j + 1, j);
    assert was[..j + 1][j] == COMMA;
    if i < s.Length && IsClose(s[i]) {
      CommaBlanked(start, was, j, i);
      s[j] := SPACE;
      assert s[..] == was[j := SPACE];
    }
    CommaDone(whole[j..], s[..], j, Clamp(i, s.Length));
  }

  ghost predicate InString(text: seq<byte>, lo: nat, i: nat, m: Mode) {
    lo <= i <= |text| && WellPlaced(m) && Lex(Str, text[lo..]) == text[lo..i] + Lex(m, text[i..])
  }

  lemma StringQuote(text: seq<byte>, lo: nat, i: nat)
    requires InString(text, lo, i, Str) && i < |text| && text[i] == QUOTE
    ensures InString(text, lo, i + 1, Code)
  {
    assert text[i..][1..] == text[i + 1..] && text[lo..i + 1] == text[lo..i] + [text[i]];
  }

  lemma StringEscape(text: seq<byte>, lo: nat, i: nat)
    requires InString(text, lo, i, Str) && i < |text| && text[i] == BACKSLASH
    ensures InString(text, lo, Clamp(i + 2, |text|), Str)
  {
    if i + 1 < |text| {
      assert text[i..][2..] == text[i + 2..] && text[i..][..2] == text[i..i + 2];
      assert text[lo..i + 2] == text[lo..i] + text[i..i + 2];
    } else {
      assert text[i..][1..] == [] && text[lo..i + 1] == text[lo..i] + [text[i]];
    }
  }

  lemma StringByte(text: seq<byte>, lo: nat, i: nat)
    requires InString(text, lo, i, Str) && i < |text| && text[i] != BACKSLASH && text[i] != QUOTE
    ensures InString(text, lo, i + 1, Str)
  {
    assert text[i..][1..] == text[i + 1..] && text[lo..i + 1] == text[lo..i] + [text[i]];
  }

  /** One byte of a string, or two when the first is a backslash; stops after the closing quote. */
  method StringOne(s: array<byte>, at: nat, ghost lo: nat) returns (i: nat, closed: bool)
    requires at < s.Length && InString(s[..], lo, at, Str)
    ensures at < i && InString(s[..], lo, Clamp(i, s.Length), if closed then Code else Str)
  {
    if s[at] == QUOTE {
      StringQuote(s[..], lo, at);
      i, closed := at + 1, true;
    } else if s[at] == BACKSLASH {
      StringEscape(s[..], lo, at);
      i, closed := at + 2, false;
    } else {
      StringByte(s[..], lo, at);
      i, closed := at + 1, false;
    }
  }

  lemma StringBegins(text: seq<byte>, lo: nat)
    requires lo <= |text|
    ensures InString(text, lo, lo, Str)
  {
    assert text[lo..lo] == [];
  }

  method SkipString(s: array<byte>, from: nat) returns (i: nat)
    requires from <= s.Length
    ensures from <= i
    ensures InString(s[..], from, Clamp(i, s.Length), Code)
  {
    i := from;
    StringBegins(s[..], from);
    while i < s.Length
      invariant from <= i && InString(s[..], from, Clamp(i, s.Length), Str)
    {
      var closed;
      i, closed := StringOne(s, i, from);
      if closed {
        return;
      }
    }
    StringRunsOut(s[..], from);
  }

  lemma StringRunsOut(text: seq<byte>, lo: nat)
    requires InString(text, lo, |text|, Str)
    ensures InString(text, lo, |text|, Code)
  {
  }

  lemma StringDone(text: seq<byte>, at: nat, i: nat)
    requires at < |text| && text[at] == QUOTE && InString(text, at + 1, i, Code)
    ensures Written(Code, text[at..], text, at, i, Code)
  {
    assert text[at..][1..] == text[at + 1..] && text[at..i] == [QUOTE] + text[at + 1..i];
  }

  lemma PlainDone(text: seq<byte>, at: nat)
    requires at < |text| && text[at] != QUOTE && text[at] != COMMA
    requires text[at] == SLASH ==> !StartsComment(text, at + 1)
    ensures Written(Code, text[at..], text, at, at + 1, Code)
  {
    assert text[at..][1..] == text[at + 1..] && text[at..at + 1] == [text[at]];
  }

  /** Rewrites a text in place exactly as the lexer says, whatever the bytes are. */
  method Prep(s: array<byte>)
    modifies s
    ensures s[..] == Lex(Code, old(s[..]))
  {
    var i := 0;
    ghost var text := s[..];
    assert text[0..0] == [] && text[0..] == text;
    while i < s.Length
      invariant Written(Code, text, s[..], 0, Clamp(i, s.Length), Code)
      decreases s.Length - i
    {
      ghost var was, at := s[..], i;
      if s[i] == QUOTE {
        i := SkipString(s, i + 1);
        StringDone(was, at, Clamp(i, s.Length));
      } else if s[i] == SLASH {
        i := ConsumeComment(s, i + 1, Code);
        if !StartsComment(was, at + 1) {
          PlainDone(was, at);
        }
      } else if s[i] == COMMA {
        i := TrimComma(s, i);
      } else {
        i := i + 1;
        PlainDone(was, at);
      }
      Chained(Code, text, was, s[..], 0, at, Clamp(i, s.Length));
    }
    assert s[0..s.Length] == s[..];
  }
}
