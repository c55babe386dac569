/**
 What single keys and escape sequences come to over a terminal line: readRune, skipEscape
 and decodeHigh of internal/bbs/session.go for each of the three kinds of terminal.
 */
module KeyLaws {
  import opened Text
  import opened LineEditor
  import opened Keyboards
  import Charsets

  // ---- escape sequences ------------------------------------------------------------------

  lemma {:induction false} InsideSequence(cs: Terminal, st: Input, params: Bytes, final: char, rest: Bytes)
    requires st.esc == EscSeq && '@' <= final <= '~' && forall c :: c in params ==> !('@' <= c <= '~')
    ensures Keys(cs, st, params + [final] + rest) == Keys(cs, st.(esc := EscNone), rest)
    decreases |params|
  {
    hide Keys, TakeData;
    var d := params + [final] + rest;
    KeysStep(cs, st, d);
    if params == [] {
      assert d[0] == final && d[1..] == rest;
      NothingAdded(Keys(cs, st.(esc := EscNone), rest));
    } else {
      assert d[0] == params[0] && d[1..] == params[1..] + [final] + rest;
      assert params[0] in params && forall c :: c in params[1..] ==> c in params;
      InsideSequence(cs, st, params[1..], final, rest);
      NothingAdded(Keys(cs, st.(esc := EscNone), rest));
    }
  }

  /** A cursor or function key, ESC [ or ESC O up to the byte that ends it, gives no key on
      any terminal, and what was read of a character before it is not lost. */
  lemma SequenceIsSilent(cs: Terminal, st: Input, open: char, params: Bytes, final: char, rest: Bytes)
    requires st.esc == EscNone && (open == '[' || open == 'O')
    requires '@' <= final <= '~' && forall c :: c in params ==> !('@' <= c <= '~')
    ensures Keys(cs, st, [ESC, open] + (params + [final] + rest)) == Keys(cs, st, rest)
  {
    hide Keys, TakeData;
    var more := params + [final] + rest;
    var d := [ESC, open] + more;
    assert d[0] == ESC && d[1..] == [open] + more && ([open] + more)[1..] == more;
    KeysStep(cs, st, d);
    KeysStep(cs, st.(esc := EscStart), [open] + more);
    InsideSequence(cs, st.(esc := EscSeq), params, final, rest);
    NothingAdded(Keys(cs, st.(esc := EscSeq), more));
    NothingAdded(Keys(cs, st.(esc := EscStart), [open] + more));
  }

  /** Escape on its own gives no key, and the byte after it means what it always does. */
  lemma LoneEscape(cs: Terminal, st: Input, b: char, rest: Bytes)
    requires st.esc == EscNone && b != '[' && b != 'O'
    ensures Keys(cs, st, [ESC, b] + rest) == Keys(cs, st, [b] + rest)
  {
    hide Keys, TakeData;
    assert ([ESC, b] + rest)[1..] == [b] + rest && ([b] + rest)[1..] == rest;
    KeysStep(cs, st, [ESC, b] + rest);
    KeysStep(cs, st.(esc := EscStart), [b] + rest);
    KeysStep(cs, st, [b] + rest);
    NothingAdded(Keys(cs, st.(esc := EscStart), [b] + rest));
  }

  // ---- keys ------------------------------------------------------------------------------

  /** BS and DEL are Backspace, ^U kills the line, CR and LF are Enter, and a NUL is
      nothing; any other ASCII byte but ESC is its character. */
  lemma AsciiKeys(cs: Terminal, st: Input, b: char, rest: Bytes)
    requires st.esc == EscNone && !st.lastCR && b as int < 0x80 && b as int != 27
    ensures var keys := if b as int == 8 || b as int == 127 then [Backspace]
                        else if b as int == 21 then [KillLine]
                        else if b as int == 13 || b as int == 10 then [Enter]
                        else if b as int == 0 then []
                        else [Rune(b)];
            Keys(cs, st, [b] + rest) == keys + Keys(cs, st.(lastCR := b as int == 13), rest)
  {
    hide Keys, DecodeHigh;
    assert ([b] + rest)[1..] == rest;
    KeysStep(cs, st, [b] + rest);
  }

  /** After CR one LF or one NUL gives nothing. */
  lemma AfterCr(cs: Terminal, st: Input, b: char, rest: Bytes)
    requires st.esc == EscNone && st.lastCR && (b as int == 10 || b as int == 0)
    ensures Keys(cs, st, [b] + rest) == Keys(cs, st.(lastCR := false), rest)
  {
    hide Keys, DecodeHigh;
    assert ([b] + rest)[1..] == rest;
    KeysStep(cs, st, [b] + rest);
    NothingAdded(Keys(cs, st.(lastCR := false), rest));
  }

  // ---- the other terminals -----------------------------------------------------------------

  lemma UnitTyped(st: Input, c: char, rest: Bytes)
    requires Typable(c) && Charsets.FitsRune(c, Charsets.CP437) && st.esc == EscNone
    ensures Keys(TermCp437, st, Charsets.EncodeRune(c, Charsets.CP437) + rest) == [Rune(c)] + Keys(TermCp437, st.(lastCR := false), rest)
  {
    hide Keys, Charsets.EncodeUnit, Charsets.DecodeUnit, Charsets.FitsRune;
    Charsets.UnitRoundTrip(c, Charsets.CP437);
    Charsets.UnitByte(c, Charsets.CP437);
    var b := Charsets.EncodeUnit(c, Charsets.CP437);
    assert ([b] + rest)[1..] == rest;
    UnitIsData(c, b);
    KeysStep(TermCp437, st, [b] + rest);
  }

  lemma UnitIsData(c: char, b: char)
    requires Typable(c) && Charsets.FitsRune(c, Charsets.CP437) && b == Charsets.EncodeUnit(c, Charsets.CP437)
    requires Charsets.DecodeUnit(b, Charsets.CP437) == c
    ensures b as int >= 0x80 || b == c
    ensures b != ESC && b != '\r' && b != '\n' && b != NUL && b != BACKSPACE && b != DEL && b != CTRL_U
  {
    Charsets.UnitByte(c, Charsets.CP437);
  }

  /** What a CP437 terminal sends for a text of its characters comes as that text. */
  lemma {:induction false} Cp437IsRead(st: Input, s: string, rest: Bytes)
    requires (forall c :: c in s ==> Typable(c)) && Charsets.Fits(s, Charsets.CP437) && st.esc == EscNone
    ensures Keys(TermCp437, st, Charsets.Encode(s, Charsets.CP437) + rest)
            == Runes(s) + Keys(TermCp437, if s == "" then st else st.(lastCR := false), rest)
    decreases |s|
  {
    hide Keys, Charsets.EncodeRune, Charsets.FitsRune;
    if s == "" {
      assert Charsets.Encode(s, Charsets.CP437) + rest == rest;
      NothingAdded(Keys(TermCp437, st, rest));
    } else {
      var c, tail := s[0], Charsets.Encode(s[1..], Charsets.CP437);
      assert c in s && forall x :: x in s[1..] ==> x in s;
      Assoc(Charsets.EncodeRune(c, Charsets.CP437), tail, rest);
      UnitTyped(st, c, tail + rest);
      Cp437IsRead(st.(lastCR := false), s[1..], rest);
      Assoc([Rune(c)], Runes(s[1..]), Keys(TermCp437, st.(lastCR := false), rest));
    }
  }

  /** An ASCII terminal's high bytes give nothing. */
  lemma HighIgnored(st: Input, b: char, rest: Bytes)
    requires st.esc == EscNone && b as int >= 0x80
    ensures Keys(TermAscii, st, [b] + rest) == Keys(TermAscii, st.(lastCR := false), rest)
  {
    hide Keys;
    assert ([b] + rest)[1..] == rest;
    KeysStep(TermAscii, st, [b] + rest);
    NothingAdded(Keys(TermAscii, st.(lastCR := false), rest));
  }

  // ---- taking characters back ----------------------------------------------------------------

  /** Typing a text, then BS or DEL as often as it has characters, and then the rest is
      the same at a prompt as typing the rest. */
  lemma {:induction false} ErasedAtPrompt(o: LineOpts, buf: string, s: string, keys: seq<Key>)
    requires |buf| + |s| <= o.max && forall i :: 0 <= i < |s| ==> s[i] >= ' '
    ensures ReadLine(o, buf, Runes(s) + seq(|s|, _ => Backspace) + keys) == ReadLine(o, buf, keys)
    decreases |s|
  {
    hide WrapOverflow;
    var back := seq(|s|, _ => Backspace);
    if s == "" {
      assert Runes(s) + back + keys == keys;
    } else {
      var inner := seq(|s| - 1, _ => Backspace);
      assert back == inner + [Backspace];
      var all := Runes(s) + back + keys;
      assert all == [Rune(s[0])] + (Runes(s[1..]) + inner + ([Backspace] + keys));
      assert all[1..] == Runes(s[1..]) + inner + ([Backspace] + keys);
      ErasedAtPrompt(o, buf + [s[0]], s[1..], [Backspace] + keys);
      assert ([Backspace] + keys)[1..] == keys;
      assert (buf + [s[0]])[..|buf|] == buf;
    }
  }
}
