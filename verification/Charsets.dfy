/**
 Message character sets (FTS-5003): Encode and Decode of internal/ftn/charset.go
 with the two code pages of internal/ftn and internal/term, and real UTF-8.
 */
module Charsets {
  import opened Text

  datatype Charset = ASCII | CP437 | CP866 | LATIN1 | UTF8

  const CP437_HIGH: string :=
    "ÇüéâäàåçêëèïîìÄÅÉæÆôöòûùÿÖÜ¢£¥₧ƒ" +
    "áíóúñÑªº¿⌐¬½¼¡«»░▒▓│┤╡╢╖╕╣║╗╝╜╛┐" +
    "└┴┬├─┼╞╟╚╔╩╦╠═╬╧╨╤╥╙╘╒╓╫╪┘┌█▄▌▐▀" +
    "αßΓπΣσµτΦΘΩδ∞φε∩≡±≥≤⌠⌡÷≈°∙·√ⁿ²■\U{A0}"

  const CP866_HIGH: string :=
    "АБВГДЕЖЗИЙКЛМНОПРСТУФХЦЧШЩЪЫЬЭЮЯ" +
    "абвгдежзийклмноп░▒▓│┤╡╢╖╕╣║╗╝╜╛┐" +
    "└┴┬├─┼╞╟╚╔╩╦╠═╬╧╨╤╥╙╘╒╓╫╪┘┌█▄▌▐▀" +
    "рстуфхцчшщъыьэюяЁёЄєЇїЎў°∙·√№¤■\U{A0}"

  // ---- UTF-8 --------------------------------------------------------------

  /** The UTF-8 form of one code point. */
  function Utf8(c: char): (b: Bytes)
    ensures 1 <= |b| <= 4
  {
    var n := c as int;
    if n < 0x80 then [c]
    else if n < 0x800 then [(0xC0 + n / 64) as char, Tail(n)]
    else if n < 0x1_0000 then [(0xE0 + n / 4096) as char, Tail(n / 64), Tail(n)]
    else [(0xF0 + n / 262144) as char, Tail(n / 4096), Tail(n / 64), Tail(n)]
  }

  function Tail(n: nat): (c: char)
    ensures 0x80 <= c as int < 0xC0
  {
    (0x80 + n % 64) as char
  }

  predicate IsTail(c: char) { 0x80 <= c as int < 0xC0 }

  function Bits(c: char): nat
    requires IsTail(c)
  {
    c as int - 0x80
  }

  datatype Rune = Rune(c: char, size: nat) | Invalid

  /** utf8.DecodeRune: the code point at the start of b. Overlong forms,
      surrogates and values past U+10FFFF are invalid. */
  function FirstRune(b: Bytes): (r: Rune)
    requires b != ""
    ensures r.Rune? ==> 1 <= r.size <= |b|
  {
    var lead := b[0] as int;
    if lead < 0x80 then Rune(b[0], 1)
    else if 0xC2 <= lead <= 0xDF && |b| >= 2 && IsTail(b[1]) then
      Rune(((lead - 0xC0) * 64 + Bits(b[1])) as char, 2)
    else if 0xE0 <= lead <= 0xEF && |b| >= 3 && IsTail(b[1]) && IsTail(b[2])
            && (lead == 0xE0 ==> b[1] as int >= 0xA0) && (lead == 0xED ==> b[1] as int < 0xA0) then
      Rune(((lead - 0xE0) * 4096 + Bits(b[1]) * 64 + Bits(b[2])) as char, 3)
    else if 0xF0 <= lead <= 0xF4 && |b| >= 4 && IsTail(b[1]) && IsTail(b[2]) && IsTail(b[3])
            && (lead == 0xF0 ==> b[1] as int >= 0x90) && (lead == 0xF4 ==> b[1] as int < 0x90) then
      Rune(((lead - 0xF0) * 262144 + Bits(b[1]) * 4096 + Bits(b[2]) * 64 + Bits(b[3])) as char, 4)
    else Invalid
  }

  /** strings.ToValidUTF8: a run of invalid bytes becomes one U+FFFD. */
  function DecodeUtf8(b: Bytes, inRun: bool): string
    decreases |b|
  {
    if b == "" then ""
    else match FirstRune(b)
      case Rune(c, n) => [c] + DecodeUtf8(b[n..], false)
      case Invalid => (if inRun then "" else "\U{FFFD}") + DecodeUtf8(b[1..], true)
  }

  lemma FirstRuneOfUtf8(c: char, rest: Bytes)
    ensures FirstRune(Utf8(c) + rest) == Rune(c, |Utf8(c)|)
  {
    var n := c as int;
    var b := Utf8(c) + rest;
    assert b[0] == Utf8(c)[0];
    if 0x80 <= n < 0x800 {
      assert b[1] == Tail(n);
    } else if 0x800 <= n < 0x1_0000 {
      assert b[1] == Tail(n / 64) && b[2] == Tail(n);
      assert n / 4096 == n / 64 / 64;
    } else if 0x1_0000 <= n {
      assert b[1] == Tail(n / 4096) && b[2] == Tail(n / 64) && b[3] == Tail(n);
      assert n / 262144 == n / 4096 / 64 && n / 4096 == n / 64 / 64;
    }
  }

  /** Bytes are taken for a code point only if they are its UTF-8 form, so no overlong
      form, surrogate or value past U+10FFFF is. */
  lemma RuneIsUtf8(b: Bytes)
    requires b != "" && FirstRune(b).Rune?
    ensures FirstRune(b).size == |Utf8(FirstRune(b).c)| && Utf8(FirstRune(b).c) <= b
  {
    if b[0] as int >= 0xF0 {
      FourByteRune(b);
    } else if b[0] as int >= 0xE0 {
      ThreeByteRune(b);
    }
  }

  lemma FourByteRune(b: Bytes)
    requires b != "" && b[0] as int >= 0xF0 && FirstRune(b).Rune?
    ensures FirstRune(b).size == 4 && Utf8(FirstRune(b).c) == b[..4]
  {
    FourBytes(b[0] as int - 0xF0, b[1] as int - 0x80, b[2] as int - 0x80, b[3] as int - 0x80);
  }

  lemma ThreeByteRune(b: Bytes)
    requires b != "" && 0xE0 <= b[0] as int < 0xF0 && FirstRune(b).Rune?
    ensures FirstRune(b).size == 3 && Utf8(FirstRune(b).c) == b[..3]
  {
    ThreeBytes(b[0] as int - 0xE0, b[1] as int - 0x80, b[2] as int - 0x80);
  }

  lemma ThreeBytes(h: nat, x: nat, y: nat)
    requires h < 16 && x < 64 && y < 64
    ensures var n := h * 4096 + x * 64 + y; n / 4096 == h && n / 64 % 64 == x && n % 64 == y
  {
    assert (h * 4096 + x * 64 + y) / 64 == h * 64 + x;
  }

  lemma FourBytes(h: nat, x: nat, y: nat, z: nat)
    requires h < 8 && x < 64 && y < 64 && z < 64
    ensures var n := h * 262144 + x * 4096 + y * 64 + z;
            n / 262144 == h && n / 4096 % 64 == x && n / 64 % 64 == y && n % 64 == z
  {
    var n := h * 262144 + x * 4096 + y * 64 + z;
    assert n / 64 == h * 4096 + x * 64 + y;
    assert n / 4096 == h * 64 + x;
  }

  // ---- Encode, Decode, Fits -----------------------------------------------

  /** The byte a code page has for a high character; '?' when it has none. The
      last of two equal table entries wins, as in the map built from it. */
  function Lookup(table: string, c: char): char
    requires |table| == 128
  {
    var after := AfterLast(table, c);
    if after == 0 then '?' else (0x7F + after) as char
  }

  /** One character of a single-byte set. */
  function EncodeUnit(c: char, cs: Charset): char {
    if c as int < 0x80 then c
    else match cs
      case LATIN1 => if c as int <= 0xFF then c else '?'
      case CP437 => Lookup(CP437_HIGH, c)
      case CP866 => Lookup(CP866_HIGH, c)
      case _ => '?'
  }

  function DecodeUnit(b: char, cs: Charset): char {
    if b as int < 0x80 || cs.LATIN1? || b as int > 0xFF then b
    else match cs
      case CP437 => CP437_HIGH[b as int - 0x80]
      case CP866 => CP866_HIGH[b as int - 0x80]
      case _ => '?'
  }

  function EncodeRune(c: char, cs: Charset): (b: Bytes)
    ensures b != ""
  {
    if cs.UTF8? then Utf8(c) else [EncodeUnit(c, cs)]
  }

  function Encode(s: string, cs: Charset): Bytes {
    if s == "" then "" else EncodeRune(s[0], cs) + Encode(s[1..], cs)
  }

  function DecodeUnits(b: Bytes, cs: Charset): string {
    if b == "" then "" else [DecodeUnit(b[0], cs)] + DecodeUnits(b[1..], cs)
  }

  function Decode(b: Bytes, cs: Charset): string {
    if cs.UTF8? then DecodeUtf8(b, false) else DecodeUnits(b, cs)
  }

  /** Whether the set has a byte for c; UTF-8 has one for every code point. */
  predicate FitsRune(c: char, cs: Charset) {
    c as int < 0x80
    || match cs
      case UTF8 => true
      case LATIN1 => c as int <= 0xFF
      case CP437 => c in CP437_HIGH
      case CP866 => c in CP866_HIGH
      case ASCII => false
  }

  predicate Fits(s: string, cs: Charset) { forall i :: 0 <= i < |s| ==> FitsRune(s[i], cs) }

  lemma LookupIsInverse(table: string, c: char)
    requires |table| == 128
    ensures c in table ==> 0x80 <= Lookup(table, c) as int <= 0xFF && table[Lookup(table, c) as int - 0x80] == c
    ensures c !in table ==> Lookup(table, c) == '?'
  {
  }

  lemma TableSizes()
    ensures |CP437_HIGH| == 128 && |CP866_HIGH| == 128
  {
  }

  lemma UnitRoundTrip(c: char, cs: Charset)
    requires !cs.UTF8?
    ensures FitsRune(c, cs) <==> DecodeUnit(EncodeUnit(c, cs), cs) == c
  {
    hide Lookup, CP437_HIGH, CP866_HIGH;
    TableSizes();
    LookupIsInverse(CP437_HIGH, c);
    LookupIsInverse(CP866_HIGH, c);
  }

  /** Fits means what it promises: the text survives Encode, and Decode gives it
      back, exactly when Fits says so. */
  lemma {:induction false} DecodeOfEncode(s: string, cs: Charset)
    ensures Fits(s, cs) <==> Decode(Encode(s, cs), cs) == s
  {
    if s != "" {
      var rest := Encode(s[1..], cs);
      DecodeOfEncode(s[1..], cs);
      assert Fits(s, cs) <==> FitsRune(s[0], cs) && Fits(s[1..], cs);
      if cs.UTF8? {
        FirstRuneOfUtf8(s[0], rest);
        assert Encode(s, cs)[|Utf8(s[0])|..] == rest;
        assert Decode(Encode(s, cs), cs) == [s[0]] + Decode(rest, cs);
      } else {
        UnitRoundTrip(s[0], cs);
        assert Encode(s, cs)[1..] == rest;
        assert Decode(Encode(s, cs), cs) == [DecodeUnit(EncodeUnit(s[0], cs), cs)] + Decode(rest, cs);
      }
      assert s == [s[0]] + s[1..];
    }
  }

  lemma {:induction false} DecodeThen(a: string, inRun: bool, rest: Bytes)
    requires a != ""
    ensures DecodeUtf8(Encode(a, UTF8) + rest, inRun) == a + DecodeUtf8(rest, false)
    decreases |a|
  {
    hide Utf8, FirstRune;
    var u, tail := Utf8(a[0]), Encode(a[1..], UTF8);
    FirstRuneOfUtf8(a[0], tail + rest);
    Assoc(u, tail, rest);
    assert (u + (tail + rest))[|u|..] == tail + rest;
    if |a| > 1 {
      DecodeThen(a[1..], false, rest);
      Assoc([a[0]], a[1..], DecodeUtf8(rest, false));
    } else {
      assert tail + rest == rest;
    }
    assert a == [a[0]] + a[1..];
  }

  lemma {:induction false} StrayBytes(bad: Bytes, inRun: bool, rest: Bytes)
    requires bad != "" && forall i :: 0 <= i < |bad| ==> 0x80 <= bad[i] as int < 0xC2 || 0xF5 <= bad[i] as int < 0x100
    ensures DecodeUtf8(bad + rest, inRun) == (if inRun then "" else "\U{FFFD}") + DecodeUtf8(rest, true)
    decreases |bad|
  {
    assert (bad + rest)[0] == bad[0] && (bad + rest)[1..] == bad[1..] + rest;
    if |bad| > 1 {
      StrayBytes(bad[1..], true, rest);
      assert "" + DecodeUtf8(rest, true) == DecodeUtf8(rest, true);
    } else {
      assert bad[1..] + rest == rest;
    }
  }

  /** Bytes that cannot stand where they do, however many, read as one U+FFFD, and the text
      before and after them is read as it is. */
  lemma DamageIsLocal(a: string, bad: Bytes, b: string)
    requires bad != "" && forall i :: 0 <= i < |bad| ==> 0x80 <= bad[i] as int < 0xC2 || 0xF5 <= bad[i] as int < 0x100
    ensures Decode(Encode(a, UTF8) + bad + Encode(b, UTF8), UTF8) == a + "\U{FFFD}" + b
  {
    hide DecodeUtf8, Encode;
    var rest := Encode(b, UTF8);
    NothingDecodes();
    StrayBytes(bad, false, rest);
    Assoc(Encode(a, UTF8), bad, rest);
    if a == "" {
      assert "" + (bad + rest) == bad + rest;
      assert "" + "\U{FFFD}" == "\U{FFFD}";
    } else {
      DecodeThen(a, false, bad + rest);
      Assoc(a, "\U{FFFD}", b);
    }
    if b != "" {
      DecodeThen(b, true, "");
      assert rest + "" == rest && b + "" == b;
    }
  }

  lemma NothingDecodes()
    ensures DecodeUtf8("", true) == "" && DecodeUtf8("", false) == "" && Encode("", UTF8) == ""
  {
  }

  // ---- what Encode keeps ---------------------------------------------------

  lemma {:induction false} EncodeConcat(a: string, b: string, cs: Charset)
    ensures Encode(a + b, cs) == Encode(a, cs) + Encode(b, cs)
  {
    if a == "" {
      assert a + b == b;
    } else {
      assert (a + b)[1..] == a[1..] + b;
      EncodeConcat(a[1..], b, cs);
      Assoc(EncodeRune(a[0], cs), Encode(a[1..], cs), Encode(b, cs));
    }
  }

  lemma UnitByte(c: char, cs: Charset)
    ensures c as int < 0x80 ==> EncodeUnit(c, cs) == c
    ensures c as int >= 0x80 ==> 0x80 <= EncodeUnit(c, cs) as int < 0x100 || EncodeUnit(c, cs) == '?'
  {
    LookupIsInverse(CP437_HIGH, c);
    LookupIsInverse(CP866_HIGH, c);
  }

  lemma Utf8Bytes(c: char)
    ensures IsBytes(Utf8(c))
    ensures c as int < 0x80 ==> Utf8(c) == [c]
    ensures c as int >= 0x80 ==> forall i :: 0 <= i < |Utf8(c)| ==> Utf8(c)[i] as int >= 0x80
  {
  }

  lemma RuneBytes(c: char, cs: Charset)
    ensures IsBytes(EncodeRune(c, cs))
    ensures c as int < 0x80 ==> EncodeRune(c, cs) == [c]
    ensures c as int >= 0x80 ==>
              forall i :: 0 <= i < |EncodeRune(c, cs)| ==>
                            EncodeRune(c, cs)[i] as int >= 0x80 || EncodeRune(c, cs)[i] == '?'
  {
    Utf8Bytes(c);
    UnitByte(c, cs);
  }

  /** Encode yields bytes, and invents no ASCII character but '?'. */
  lemma {:induction false} EncodeBytes(s: string, cs: Charset)
    ensures IsBytes(Encode(s, cs))
    ensures forall c | c as int < 0x80 && c != '?' :: c in Encode(s, cs) ==> c in s
  {
    if s != "" {
      RuneBytes(s[0], cs);
      EncodeBytes(s[1..], cs);
    }
  }

  lemma {:induction false} EncodeAscii(s: string, cs: Charset)
    requires forall i :: 0 <= i < |s| ==> s[i] as int < 0x80
    ensures Encode(s, cs) == s
  {
    if s != "" {
      RuneBytes(s[0], cs);
      EncodeAscii(s[1..], cs);
    }
  }

  /** An ASCII prefix of the bytes was a prefix of the text. */
  lemma {:induction false} EncodePrefix(s: string, cs: Charset, p: string)
    requires forall i :: 0 <= i < |p| ==> p[i] as int < 0x80 && p[i] != '?'
    requires p <= Encode(s, cs)
    ensures p <= s
  {
    if p != "" {
      RuneBytes(s[0], cs);
      assert Encode(s, cs)[0] == p[0] == s[0];
      assert Encode(s, cs)[1..] == Encode(s[1..], cs);
      assert p[1..] <= Encode(s[1..], cs);
      EncodePrefix(s[1..], cs, p[1..]);
      assert p == [p[0]] + p[1..] && s == [s[0]] + s[1..];
    }
  }

  lemma {:induction false} EncodeJoin(lines: seq<string>, sep: char, cs: Charset)
    requires sep as int < 0x80
    ensures Encode(Join(lines, sep), cs) == Join(EncodeAll(lines, cs), sep)
  {
    if |lines| > 1 {
      EncodeJoin(lines[1..], sep, cs);
      EncodeConcat(lines[0] + [sep], Join(lines[1..], sep), cs);
      EncodeConcat(lines[0], [sep], cs);
      RuneBytes(sep, cs);
      assert EncodeAll(lines, cs)[1..] == EncodeAll(lines[1..], cs);
    }
  }

  function EncodeAll(lines: seq<string>, cs: Charset): (e: seq<Bytes>)
    ensures |e| == |lines|
    ensures forall i :: 0 <= i < |lines| ==> e[i] == Encode(lines[i], cs)
  {
    seq(|lines|, i requires 0 <= i < |lines| => Encode(lines[i], cs))
  }

  // ---- the loops of the program -------------------------------------------

  method EncodeText(s: string, cs: Charset) returns (out: Bytes)
    ensures out == Encode(s, cs)
  {
    hide EncodeRune;
    out := "";
    assert s[0..] == s;
    for i := 0 to |s|
      invariant out + Encode(s[i..], cs) == Encode(s, cs)
    {
      assert s[i..][1..] == s[i + 1..];
      Assoc(out, EncodeRune(s[i], cs), Encode(s[i + 1..], cs));
      out := out + EncodeRune(s[i], cs);
    }
    assert s[|s|..] == "" && out + "" == out;
  }

  method DecodeText(data: Bytes, cs: Charset) returns (out: string)
    ensures out == Decode(data, cs)
  {
    if cs.UTF8? {
      out := ToValidUtf8(data);
    } else {
      out := "";
      for i := 0 to |data|
        invariant out + DecodeUnits(data[i..], cs) == DecodeUnits(data, cs)
      {
        var rest := data[i..];
        assert rest[1..] == data[i + 1..];
        out := out + [DecodeUnit(rest[0], cs)];
      }
    }
  }

  method ToValidUtf8(data: Bytes) returns (out: string)
    ensures out == DecodeUtf8(data, false)
  {
    hide FirstRune;
    out := "";
    var inRun, rest := false, data;
    while rest != ""
      invariant out + DecodeUtf8(rest, inRun) == DecodeUtf8(data, false)
      decreases |rest|
    {
      ghost var before := out;
      match FirstRune(rest)
      case Rune(c, n) =>
        Assoc(before, [c], DecodeUtf8(rest[n..], false));
        out, rest, inRun := out + [c], rest[n..], false;
      case Invalid =>
        Assoc(before, if inRun then "" else "\U{FFFD}", DecodeUtf8(rest[1..], true));
        out, rest, inRun := out + (if inRun then "" else "\U{FFFD}"), rest[1..], true;
    }
  }

  method FitsText(s: string, cs: Charset) returns (fits: bool)
    ensures fits <==> Decode(Encode(s, cs), cs) == s
  {
    hide FitsRune, Encode, Decode;
    DecodeOfEncode(s, cs);
    for i := 0 to |s|
      invariant forall k :: 0 <= k < i ==> FitsRune(s[k], cs)
    {
      if !FitsRune(s[i], cs) {
        return false;
      }
    }
    return true;
  }

  // ---- the CHRS line -------------------------------------------------------

  function CHRS(cs: Charset): string {
    match cs
    case CP437 => "CP437 2"
    case CP866 => "CP866 2"
    case LATIN1 => "LATIN-1 2"
    case UTF8 => "UTF-8 4"
    case ASCII => "ASCII 1"
  }

  datatype MaybeCharset = Unknown | Known(cs: Charset)

  function CharsetNamed(name: string): MaybeCharset {
    if name == "ASCII" then Known(ASCII)
    else if name == "CP437" || name == "IBMPC" then Known(CP437)
    else if name == "CP866" || name == "+7_FIDO" || name == "+7" then Known(CP866)
    else if name == "LATIN-1" || name == "ISO-8859-1" then Known(LATIN1)
    else if name == "UTF-8" then Known(UTF8)
    else Unknown
  }

  function ParseCHRS(v: Bytes): MaybeCharset {
    var t := TrimSpace(v);
    CharsetNamed(ToUpper(t[..Index(t, ' ')]))
  }

  /** The identifier and the level of the CHRS line, apart. */
  function Identifier(cs: Charset): (name: string)
    ensures CharsetNamed(name) == Known(cs)
    ensures |name| >= 1 && forall i :: 0 <= i < |name| ==> '!' <= name[i] <= 'Z'
  {
    match cs
    case CP437 => "CP437"
    case CP866 => "CP866"
    case LATIN1 => "LATIN-1"
    case UTF8 => "UTF-8"
    case ASCII => "ASCII"
  }

  function Level(cs: Charset): (level: string)
    ensures |level| == 1 && IsDigit(level[0])
  {
    if cs.UTF8? then "4" else if cs.ASCII? then "1" else "2"
  }

  lemma CHRSParts(cs: Charset)
    ensures CHRS(cs) == Identifier(cs) + " " + Level(cs)
  {
  }

  /** The charset a message names is the charset a reader finds. */
  lemma ParseOfCHRS(cs: Charset)
    ensures ParseCHRS(CHRS(cs)) == Known(cs)
    ensures TrimSpace(CHRS(cs)) == CHRS(cs)
  {
    CHRSParts(cs);
    NamedLevel(Identifier(cs), Level(cs));
  }

  lemma NamedLevel(name: string, level: string)
    requires |name| >= 1 && |level| == 1 && IsDigit(level[0])
    requires forall i :: 0 <= i < |name| ==> '!' <= name[i] <= 'Z'
    ensures ParseCHRS(name + " " + level) == CharsetNamed(name)
    ensures TrimSpace(name + " " + level) == name + " " + level
  {
    var v := name + " " + level;
    TrimGraphicEnds(v);
    IndexAfter(name, ' ', level);
    assert v[..|name|] == name;
    assert ToUpper(name) == name;
  }

  lemma NameOf(name: string, tail: string)
    requires name != "" && Graphic(name)
    requires tail == "" || (|tail| >= 2 && tail[0] == ' ' && Graphic(tail[1..]))
    ensures ParseCHRS(name + tail) == CharsetNamed(ToUpper(name))
  {
    hide CharsetNamed, ToUpper;
    var v := name + tail;
    assert v[0] == name[0] && v[|v| - 1] == if tail == "" then name[|name| - 1] else tail[1..][|tail| - 2];
    TrimGraphicEnds(v);
    if tail == "" {
      assert v == name;
      IndexNone(name, ' ');
    } else {
      assert v == name + [' '] + tail[1..];
      IndexAfter(name, ' ', tail[1..]);
    }
    assert v[..|name|] == name;
  }

  /** The names a reader knows, the old ones among them, in any case of letters and with
      or without a level after them; any other name is unknown. */
  lemma NamesKnown(name: string, tail: string)
    requires name != "" && Graphic(name)
    requires tail == "" || (|tail| >= 2 && tail[0] == ' ' && Graphic(tail[1..]))
    ensures var n, cs := ToUpper(name), ParseCHRS(name + tail);
            && (cs == Known(CP437) <==> n in {"CP437", "IBMPC"})
            && (cs == Known(CP866) <==> n in {"CP866", "+7_FIDO", "+7"})
            && (cs == Known(LATIN1) <==> n in {"LATIN-1", "ISO-8859-1"})
            && (cs == Known(UTF8) <==> n == "UTF-8")
            && (cs == Known(ASCII) <==> n == "ASCII")
  {
    hide ToUpper, ParseCHRS;
    NameOf(name, tail);
    Names(ToUpper(name));
  }

  lemma Names(n: string)
    ensures CharsetNamed(n) == Known(CP437) <==> n in {"CP437", "IBMPC"}
    ensures CharsetNamed(n) == Known(CP866) <==> n in {"CP866", "+7_FIDO", "+7"}
    ensures CharsetNamed(n) == Known(LATIN1) <==> n in {"LATIN-1", "ISO-8859-1"}
    ensures CharsetNamed(n) == Known(UTF8) <==> n == "UTF-8"
    ensures CharsetNamed(n) == Known(ASCII) <==> n == "ASCII"
  {
    assert "CP437" != "CP866" && |"IBMPC"| == 5 && |"+7"| == 2 && |"+7_FIDO"| == 7 && |"LATIN-1"| == 7 && |"ISO-8859-1"| == 10;
  }
}
