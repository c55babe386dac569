/**
 What ParseMessage makes of each kind of line Pack writes, one lemma a kind,
 and how Pack's text falls apart into those lines.
 */
module Scanning {
  import opened Text
  import opened Charsets
  import opened Addresses
  import opened Packets
  import opened Nets
  import opened Messages

  // ---- what a message may hold -------------------------------------------------

  /** Text that stays on one line and survives the packet. */
  predicate OneLine(s: string) { '\r' !in s && '\n' !in s && NUL !in s }

  predicate IsValue(v: Bytes) { OneLine(v) && TrimSpace(v) == v }

  predicate IsName(name: Bytes) {
    OneLine(name) && ':' !in name && ' ' !in name && ToUpper(name) == name
  }

  /** A control line Pack and ParseMessage leave to the caller: its name is not
      reserved, and its value is not empty. */
  predicate IsExtra(k: Kludge) {
    IsName(k.name) && KindOf(k.name).Other? && IsValue(k.value) && k.value != ""
  }

  predicate IsTextLine(l: string) { !(l != "" && l[0] == SOH) && !(SEEN_BY <= l) }

  predicate AreTextLines(lines: seq<string>) { forall i :: 0 <= i < |lines| ==> IsTextLine(lines[i]) }

  /** A body whose lines a reader takes for text, with no blank last line. */
  predicate IsBody(body: string, cs: Charset) {
    var lines := Split(body, '\n');
    '\r' !in body && NUL !in body && AreTextLines(lines)
    && (body == "" || !Blank(Encode(lines[|lines| - 1], cs)))
  }

  predicate IsHeaderText(s: string, cs: Charset, limit: nat) {
    NUL !in s && Fits(s, cs) && Trimmed(s) && |Encode(s, cs)| < limit
  }

  predicate AreExtras(ks: seq<Kludge>) { forall i :: 0 <= i < |ks| ==> IsExtra(ks[i]) }

  predicate IsSendable(m: Message) {
    && IsHeaderText(m.from, m.charset, MAX_NAME_LEN)
    && IsHeaderText(m.to, m.charset, MAX_NAME_LEN)
    && IsHeaderText(m.subject, m.charset, MAX_SUBJECT_LEN)
    && IsValue(m.msgID) && IsValue(m.reply) && IsValue(m.tzutc) && AreExtras(m.kludges)
    && Fits(m.body, m.charset) && IsBody(m.body, m.charset)
  }

  // ---- scanning in pieces --------------------------------------------------------

  lemma {:induction false} ScanConcat(st: Scan, a: seq<Bytes>, b: seq<Bytes>)
    ensures ScanLines(st, a + b) == ScanLines(ScanLines(st, a), b)
    decreases |a|
  {
    hide Step;
    if a == [] {
      assert a + b == b;
    } else {
      assert (a + b)[1..] == a[1..] + b;
      ScanConcat(Step(st, a[0]), a[1..], b);
    }
  }

  lemma ScanOne(st: Scan, l: Bytes)
    ensures ScanLines(st, [l]) == Step(st, l)
  {
    hide Step;
    assert [l][1..] == [];
  }

  // ---- control lines ---------------------------------------------------------------

  lemma TrimPad(v: Bytes)
    ensures TrimSpace(" " + v) == TrimSpace(v)
  {
    assert (" " + v)[1..] == v;
  }

  lemma ColonSplit(name: Bytes, value: Bytes)
    requires IsName(name) && TrimSpace(value) == value
    ensures SplitKludge(name + ": " + value) == Kludge(name, value)
  {
    hide TrimSpace, ToUpper;
    var s := name + ": " + value;
    assert s == name + [':'] + (" " + value);
    IndexAfter(name, ':', " " + value);
    assert s[..|name|] == name && s[|name| + 1..] == " " + value;
    TrimPad(value);
  }

  lemma SpaceSplit(name: Bytes, value: Bytes)
    requires IsName(name) && TrimSpace(value) == value
    ensures SplitKludge(name + " " + value) == Kludge(name, value)
  {
    hide TrimSpace, ToUpper;
    var s := name + " " + value;
    IndexAfter(name, ' ', value);
    assert s[..|name|] == name && s[|name| + 1..] == value;
    var colon := Index(s, ':');
    if colon < |s| {
      assert forall k :: 0 <= k < |name| ==> s[k] == name[k] && s[k] != ':';
      assert s[|name|] == ' ';
      assert s[..colon][|name|] == ' ';
    }
  }

  lemma ControlStep(st: Scan, s: Bytes)
    ensures Step(st, [SOH] + s) == Control(st, SplitKludge(s))
  {
    hide Control, SplitKludge;
    assert ([SOH] + s)[1..] == s;
  }

  lemma KludgeStep(st: Scan, name: Bytes, value: Bytes)
    requires IsName(name) && IsValue(value)
    ensures ScanLines(st, KludgeLine(name, value)) == if value == "" then st else Control(st, Kludge(name, value))
  {
    hide Control, SplitKludge, Step, TrimSpace;
    if value != "" {
      var s := name + ": " + value;
      Assoc([SOH], name, ": ");
      Assoc([SOH], name + ": ", value);
      ScanOne(st, [SOH] + s);
      ControlStep(st, s);
      ColonSplit(name, value);
    }
  }

  lemma AddressNames()
    ensures IsName("INTL") && KindOf("INTL") == Intl
    ensures IsName("FMPT") && KindOf("FMPT") == Fmpt
    ensures IsName("TOPT") && KindOf("TOPT") == Topt
  {
  }

  lemma ReplyNames()
    ensures IsName("MSGID") && KindOf("MSGID") == MsgId
    ensures IsName("REPLY") && KindOf("REPLY") == Reply
  {
  }

  lemma CharsetNames()
    ensures IsName("CHRS") && KindOf("CHRS") == Chrs
    ensures IsName("TZUTC") && KindOf("TZUTC") == TzUtc
  {
  }

  lemma PathName()
    ensures IsName("PATH") && KindOf("PATH") == Path
  {
  }

  lemma {:induction false} ExtrasScan(st: Scan, ks: seq<Kludge>)
    requires AreExtras(ks)
    ensures ScanLines(st, KludgeLines(ks)) == st.(m := st.m.(kludges := st.m.kludges + ks))
    decreases |ks|
  {
    hide KindOf, IsName, IsValue, Step, KludgeLine;
    if ks == [] {
      assert st.m.kludges + ks == st.m.kludges;
    } else {
      assert IsExtra(ks[0]) && AreExtras(ks[1..]);
      ScanConcat(st, KludgeLine(ks[0].name, ks[0].value), KludgeLines(ks[1..]));
      KludgeStep(st, ks[0].name, ks[0].value);
      var next := st.(m := st.m.(kludges := st.m.kludges + [ks[0]]));
      ExtrasScan(next, ks[1..]);
      Assoc(st.m.kludges, [ks[0]], ks[1..]);
      assert [ks[0]] + ks[1..] == ks;
    }
  }

  /** The state after the named control lines of m. */
  function WithControls(st: Scan, m: Message): Scan {
    st.(m := st.m.(msgID := m.msgID, reply := m.reply, charset := m.charset, tzutc := m.tzutc, kludges := m.kludges))
  }

  predicate Fresh(st: Scan) {
    st.m.msgID == "" && st.m.reply == "" && st.m.tzutc == "" && st.m.kludges == []
  }

  lemma ControlsScan(st: Scan, m: Message)
    requires Fresh(st) && IsValue(m.msgID) && IsValue(m.reply) && IsValue(m.tzutc) && AreExtras(m.kludges)
    ensures ScanLines(st, ControlLines(m)) == WithControls(st, m)
  {
    hide KindOf, IsName, IsValue, Step, KludgeLine, KludgeLines, ScanLines;
    ReplyNames();
    CharsetNames();
    var a, b, c := KludgeLine("MSGID", m.msgID), KludgeLine("REPLY", m.reply), KludgeLine("CHRS", CHRS(m.charset));
    var d, e := KludgeLine("TZUTC", m.tzutc), KludgeLines(m.kludges);
    ScanFive(st, a, b, c, d, e);
    CharsetValue(m.charset);
    KludgeStep(st, "MSGID", m.msgID);
    var s1 := st.(m := st.m.(msgID := m.msgID));
    KludgeStep(s1, "REPLY", m.reply);
    var s2 := s1.(m := s1.m.(reply := m.reply));
    KludgeStep(s2, "CHRS", CHRS(m.charset));
    var s3 := s2.(m := s2.m.(charset := m.charset));
    KludgeStep(s3, "TZUTC", m.tzutc);
    var s4 := s3.(m := s3.m.(tzutc := m.tzutc));
    ExtrasScan(s4, m.kludges);
    assert [] + m.kludges == m.kludges;
  }

  lemma CharsetValue(cs: Charset)
    ensures IsValue(CHRS(cs)) && CHRS(cs) != "" && ParseCHRS(CHRS(cs)) == Known(cs)
  {
    hide ParseCHRS, TrimSpace;
    ParseOfCHRS(cs);
  }

  lemma ScanFive(st: Scan, a: seq<Bytes>, b: seq<Bytes>, c: seq<Bytes>, d: seq<Bytes>, e: seq<Bytes>)
    ensures ScanLines(st, a + b + c + d + e)
            == ScanLines(ScanLines(ScanLines(ScanLines(ScanLines(st, a), b), c), d), e)
  {
    hide Step, ScanLines;
    ScanConcat(st, a, b);
    ScanConcat(st, a + b, c);
    ScanConcat(st, a + b + c, d);
    ScanConcat(st, a + b + c + d, e);
  }

  // ---- addresses -------------------------------------------------------------------

  lemma GraphicValue(v: Bytes)
    requires v != "" && Graphic(v)
    ensures IsValue(v)
  {
    assert Graphic([v[0]]) && Graphic([v[|v| - 1]]);
    TrimGraphicEnds(v);
  }

  lemma PointScan(st: Scan, name: Bytes, point: int)
    requires IsName(name) && 0 <= point <= 65535
    ensures ScanLines(st, PointLine(name, point)) == if point == 0 then st else Control(st, Kludge(name, Itoa(point)))
  {
    hide Control, SplitKludge, Step, TrimSpace, Itoa;
    if point != 0 {
      WordOfItoa(point);
      GraphicValue(Itoa(point));
      var s := name + " " + Itoa(point);
      Assoc([SOH], name, " ");
      Assoc([SOH], name + " ", Itoa(point));
      ScanOne(st, [SOH] + s);
      ControlStep(st, s);
      SpaceSplit(name, Itoa(point));
    }
  }

  lemma TwoFields(a: Bytes, b: Bytes)
    requires a != "" && b != "" && Graphic(a) && Graphic(b)
    ensures Fields(a + " " + b) == [a, b]
    ensures IsValue(a + " " + b)
  {
    hide FieldsFrom;
    var v := a + " " + b;
    assert Graphic([v[0]]) && Graphic([v[|v| - 1]]);
    TrimGraphicEnds(v);
    SpacedTwo(a, b);
    FieldsSpaced([a, b]);
    LeadingSpace(v);
  }

  lemma SpacedTwo(a: Bytes, b: Bytes)
    ensures Spaced([a, b]) == " " + (a + " " + b)
  {
    assert [a, b][1..] == [b] && [b][1..] == [];
    assert Spaced([b]) == " " + b;
  }

  lemma LeadingSpace(v: Bytes)
    ensures FieldsFrom(" " + v, "") == FieldsFrom(v, "")
  {
    assert (" " + v)[1..] == v;
    assert [] + FieldsFrom(v, "") == FieldsFrom(v, "");
  }

  lemma IntlScan(st: Scan, m: Message)
    requires Fits16(m.orig) && Fits16(m.dest)
    ensures ScanLines(st, [IntlLine(m)])
            == st.(m := st.m.(
                 dest := st.m.dest.(zone := m.dest.zone, net := m.dest.net, node := m.dest.node),
                 orig := st.m.orig.(zone := m.orig.zone, net := m.orig.net, node := m.orig.node)))
  {
    hide SplitKludge, Step, TrimSpace, Fields, ParseTrimmed, String, KindOf, IsName, ScanLines;
    var d, o := String(Boss(m.dest)), String(Boss(m.orig));
    var v := d + " " + o;
    IntlShape(m);
    ScanOne(st, IntlLine(m));
    ControlStep(st, "INTL " + v);
    GraphicString(Boss(m.dest));
    GraphicString(Boss(m.orig));
    TwoFields(d, o);
    AddressNames();
    assert "INTL" + " " + v == "INTL " + v;
    SpaceSplit("INTL", v);
    ParseOfString(Boss(m.dest));
    ParseOfString(Boss(m.orig));
  }

  lemma IntlShape(m: Message)
    ensures IntlLine(m) == [SOH] + ("INTL " + (String(Boss(m.dest)) + " " + String(Boss(m.orig))))
  {
    hide String;
  }

  // ---- text lines --------------------------------------------------------------------

  lemma {:induction false} TextScan(st: Scan, lines: seq<Bytes>)
    requires AreTextLines(lines)
    ensures ScanLines(st, lines) == st.(body := st.body + lines)
    decreases |lines|
  {
    hide Control, SplitKludge;
    if lines == [] {
      assert st.body + lines == st.body;
    } else {
      assert IsTextLine(lines[0]) && AreTextLines(lines[1..]);
      TextScan(st.(body := st.body + [lines[0]]), lines[1..]);
      Assoc(st.body, [lines[0]], lines[1..]);
      assert [lines[0]] + lines[1..] == lines;
    }
  }

  lemma EncodedTextLine(l: string, cs: Charset)
    requires IsTextLine(l)
    ensures IsTextLine(Encode(l, cs))
  {
    hide Encode;
    if [SOH] <= Encode(l, cs) {
      EncodePrefix(l, cs, [SOH]);
    }
    if SEEN_BY <= Encode(l, cs) {
      EncodePrefix(l, cs, SEEN_BY);
    }
  }

  lemma EncodedTextLines(lines: seq<string>, cs: Charset)
    requires AreTextLines(lines)
    ensures AreTextLines(EncodeAll(lines, cs))
  {
    hide Encode, IsTextLine;
    forall i | 0 <= i < |lines| ensures IsTextLine(EncodeAll(lines, cs)[i]) {
      EncodedTextLine(lines[i], cs);
    }
  }

  /** Dropping blank lines gives the body back, with the empty line after the
      last terminator gone. */
  lemma BodyKept(body: string, cs: Charset)
    requires IsBody(body, cs)
    ensures Join(DropBlank(EncodeAll(Split(body, '\n'), cs) + [""]), '\n') == Encode(body, cs)
  {
    hide Encode, TrimSpace, Split, AreTextLines;
    var lines := Split(body, '\n');
    var e := EncodeAll(lines, cs);
    BlankEnd(e);
    if body == "" {
      EmptyBody(cs);
    } else {
      SplitPieces(body, '\n');
      EncodeJoin(lines, '\n', cs);
    }
  }

  lemma BlankEnd(e: seq<Bytes>)
    ensures DropBlank(e + [""]) == DropBlank(e)
  {
    assert (e + [""])[..|e|] == e;
    assert Blank("");
  }

  lemma EmptyBody(cs: Charset)
    ensures Join(DropBlank(EncodeAll(Split("", '\n'), cs)), '\n') == Encode("", cs)
  {
    var e := EncodeAll(Split("", '\n'), cs);
    assert e == [""];
    assert e[..0] == [];
    assert Blank("");
  }

  // ---- SEEN-BY and PATH -----------------------------------------------------------------

  lemma {:induction false} SeenByScan(st: Scan, layout: seq<seq<string>>)
    requires GoodLayout(8, layout)
    ensures ScanLines(st, Lines(SEEN_BY, layout)) == st.(m := st.m.(seenBy := st.m.seenBy + ReadLayout(layout)))
    decreases |layout|
  {
    hide Control, SplitKludge, ReadTokens, Step, StatesNet;
    var lines := Lines(SEEN_BY, layout);
    if layout == [] {
      assert st.m.seenBy + ReadLayout(layout) == st.m.seenBy;
    } else {
      assert LineWords(8, layout[0]) && GoodLayout(8, layout[1..]);
      SeenByStep(st, layout[0]);
      assert lines[1..] == Lines(SEEN_BY, layout[1..]);
      var got := ReadTokens(layout[0]).out;
      SeenByScan(st.(m := st.m.(seenBy := st.m.seenBy + got)), layout[1..]);
      Assoc(st.m.seenBy, got, ReadLayout(layout[1..]));
    }
  }

  lemma SeenByStep(st: Scan, words: seq<string>)
    requires LineWords(8, words)
    ensures Step(st, SEEN_BY + Spaced(words)) == st.(m := st.m.(seenBy := st.m.seenBy + ReadTokens(words).out))
  {
    hide Control, SplitKludge, ReadTokens, Spaced, FieldsFrom;
    var l := SEEN_BY + Spaced(words);
    assert l[0] == 'S' && l[8..] == Spaced(words);
    FieldsSpaced(words);
  }

  lemma {:induction false} PathScan(st: Scan, layout: seq<seq<string>>)
    requires GoodLayout(6, layout)
    ensures ScanLines(st, Lines(PATH_LINE, layout)) == st.(m := st.m.(path := st.m.path + ReadLayout(layout)))
    decreases |layout|
  {
    hide Control, SplitKludge, ReadTokens, Step;
    var lines := Lines(PATH_LINE, layout);
    if layout == [] {
      assert st.m.path + ReadLayout(layout) == st.m.path;
    } else {
      assert LineWords(6, layout[0]) && StatesNet(layout[0]) && GoodLayout(6, layout[1..]);
      PathStep(st, layout[0]);
      assert lines[1..] == Lines(PATH_LINE, layout[1..]);
      var got := ReadTokens(layout[0]).out;
      PathScan(st.(m := st.m.(path := st.m.path + got)), layout[1..]);
      Assoc(st.m.path, got, ReadLayout(layout[1..]));
    }
  }

  lemma PathStep(st: Scan, words: seq<string>)
    requires LineWords(6, words) && words != []
    ensures Step(st, PATH_LINE + Spaced(words)) == st.(m := st.m.(path := st.m.path + ReadTokens(words).out))
  {
    hide SplitKludge, ReadTokens, FieldsFrom, Step, Spaced, TrimSpace, KindOf, IsName, Graphic;
    var v := SpacedValue(words);
    assert PATH_LINE + Spaced(words) == [SOH] + ("PATH" + ": " + v);
    ControlStep(st, "PATH" + ": " + v);
    PathName();
    ColonSplit("PATH", v);
    FieldsSpaced(words);
    LeadingSpace(v);
  }

  /** The words after the first space, which nothing trims. */
  lemma SpacedValue(words: seq<string>) returns (v: Bytes)
    requires LineWords(6, words) && words != []
    ensures Spaced(words) == " " + v && TrimSpace(v) == v
  {
    hide TrimSpace;
    v := words[0] + Spaced(words[1..]);
    assert Graphic([v[0]]);
    SpacedEnd(words);
    assert v[|v| - 1] == Spaced(words)[|Spaced(words)| - 1];
    TrimGraphicEnds(v);
  }

  lemma {:induction false} SpacedEnd(words: seq<string>)
    requires words != [] && forall i :: 0 <= i < |words| ==> words[i] != "" && Graphic(words[i])
    ensures Spaced(words) != "" && Graphic([Spaced(words)[|Spaced(words)| - 1]])
  {
    if |words| == 1 {
      assert Spaced(words[1..]) == "";
      assert Spaced(words) == " " + words[0];
    } else {
      SpacedEnd(words[1..]);
    }
  }

  // ---- the packed text -----------------------------------------------------------------------

  /** Every line of Pack's text. */
  function AllLines(m: Message): seq<Bytes> {
    AddressLines(m) + ControlLines(m) + EncodeAll(Split(m.body, '\n'), m.charset) + NetLines(m)
  }

  lemma {:induction false} NoCrLf(s: string)
    requires '\r' !in s
    ensures JoinCrLf(s) == s && Replace(s, '\r', '\n') == s
  {
    if s != "" {
      NoCrLf(s[1..]);
      assert s == [s[0]] + s[1..];
    }
  }

  lemma BodyLines(m: Message)
    requires '\r' !in m.body
    ensures BodyBytes(m) + "\r" == Terminated(EncodeAll(Split(m.body, '\n'), m.charset), '\r')
  {
    hide Encode, Split, JoinCrLf;
    var lines := Split(m.body, '\n');
    NoCrLf(m.body);
    SplitPieces(m.body, '\n');
    ReplaceJoin(lines, '\n', '\r');
    EncodeJoin(lines, '\r', m.charset);
    JoinTerminated(EncodeAll(lines, m.charset), '\r');
  }

  lemma PackTextLines(m: Message)
    requires '\r' !in m.body
    ensures PackText(m) == Terminated(AllLines(m), '\r')
  {
    hide BodyBytes, AddressLines, ControlLines, NetLines, Split, Terminated;
    BodyLines(m);
    var front, body, nets := AddressLines(m) + ControlLines(m), EncodeAll(Split(m.body, '\n'), m.charset), NetLines(m);
    Assoc(Terminated(front, '\r'), BodyBytes(m), "\r");
    TerminatedConcat(front, body, '\r');
    TerminatedConcat(front + body, nets, '\r');
  }

  ghost predicate AllOneLine(lines: seq<Bytes>) { forall i :: 0 <= i < |lines| ==> OneLine(lines[i]) }

  lemma {:induction false} TerminatedHas(lines: seq<Bytes>, end: char, c: char)
    requires c != end && NoneHas(lines, c)
    ensures c !in Terminated(lines, end)
  {
    if lines != [] {
      TerminatedHas(lines[1..], end, c);
    }
  }

  lemma LinesOfText(lines: seq<Bytes>)
    requires AllOneLine(lines)
    ensures TextLines(Terminated(lines, '\r')) == lines + [""]
    ensures Remove(Terminated(lines, '\r'), NUL) == Terminated(lines, '\r')
  {
    hide Terminated;
    var text := Terminated(lines, '\r');
    TerminatedHas(lines, '\r', '\n');
    TerminatedHas(lines, '\r', NUL);
    RemoveNone(text, '\n');
    RemoveNone(text, NUL);
    SplitTerminated(lines, '\r', "");
    assert text + "" == text;
  }

  lemma OneLineConcat(a: seq<Bytes>, b: seq<Bytes>)
    requires AllOneLine(a) && AllOneLine(b)
    ensures AllOneLine(a + b)
  {
  }

  lemma KludgeOneLine(name: Bytes, value: Bytes)
    requires OneLine(name) && OneLine(value)
    ensures AllOneLine(KludgeLine(name, value))
  {
  }

  lemma {:induction false} ExtrasOneLine(ks: seq<Kludge>)
    requires AreExtras(ks)
    ensures AllOneLine(KludgeLines(ks))
  {
    hide KindOf, KludgeLine, TrimSpace;
    if ks != [] {
      assert IsExtra(ks[0]) && AreExtras(ks[1..]);
      KludgeOneLine(ks[0].name, ks[0].value);
      ExtrasOneLine(ks[1..]);
      OneLineConcat(KludgeLine(ks[0].name, ks[0].value), KludgeLines(ks[1..]));
    }
  }

  lemma ControlsOneLine(m: Message)
    requires IsValue(m.msgID) && IsValue(m.reply) && IsValue(m.tzutc) && AreExtras(m.kludges)
    ensures AllOneLine(ControlLines(m))
  {
    hide KindOf, KludgeLine, TrimSpace, KludgeLines;
    var a, b, c := KludgeLine("MSGID", m.msgID), KludgeLine("REPLY", m.reply), KludgeLine("CHRS", CHRS(m.charset));
    KludgeOneLine("MSGID", m.msgID);
    KludgeOneLine("REPLY", m.reply);
    CharsetValue(m.charset);
    KludgeOneLine("CHRS", CHRS(m.charset));
    KludgeOneLine("TZUTC", m.tzutc);
    ExtrasOneLine(m.kludges);
    OneLineConcat(a, b);
    OneLineConcat(a + b, c);
    OneLineConcat(a + b + c, KludgeLine("TZUTC", m.tzutc));
    OneLineConcat(a + b + c + KludgeLine("TZUTC", m.tzutc), KludgeLines(m.kludges));
  }

  lemma PointOneLine(name: Bytes, point: int)
    requires OneLine(name)
    ensures AllOneLine(PointLine(name, point))
  {
  }

  lemma IntlOneLine(m: Message)
    ensures OneLine(IntlLine(m))
  {
    hide String;
    GraphicString(Boss(m.dest));
    GraphicString(Boss(m.orig));
  }

  lemma AddressOneLine(m: Message)
    requires OneLine(m.area)
    ensures AllOneLine(AddressLines(m))
  {
    hide IntlLine, PointLine;
    IntlOneLine(m);
    PointOneLine("FMPT", m.orig.point);
    PointOneLine("TOPT", m.dest.point);
    OneLineConcat([IntlLine(m)], PointLine("FMPT", m.orig.point));
    OneLineConcat([IntlLine(m)] + PointLine("FMPT", m.orig.point), PointLine("TOPT", m.dest.point));
  }

  lemma EncodedOneLine(l: string, cs: Charset)
    requires OneLine(l)
    ensures OneLine(Encode(l, cs))
  {
    hide Encode;
    EncodeBytes(l, cs);
  }

  lemma PieceMember(body: string, c: char)
    requires c !in body
    ensures NoneHas(Split(body, '\n'), c)
    decreases |body|
  {
    if body != "" {
      PieceMember(body[1..], c);
    }
  }

  lemma BodyOneLine(body: string, cs: Charset)
    requires '\r' !in body && NUL !in body
    ensures AllOneLine(EncodeAll(Split(body, '\n'), cs))
  {
    hide Encode, Split;
    var lines := Split(body, '\n');
    SplitPieces(body, '\n');
    PieceMember(body, '\r');
    PieceMember(body, NUL);
    forall i | 0 <= i < |lines| ensures OneLine(EncodeAll(lines, cs)[i]) {
      EncodedOneLine(lines[i], cs);
    }
  }

  lemma {:induction false} SpacedOneLine(words: seq<string>)
    requires forall i :: 0 <= i < |words| ==> words[i] != "" && Graphic(words[i])
    ensures OneLine(Spaced(words))
  {
    if words != [] {
      SpacedOneLine(words[1..]);
    }
  }

  lemma NetsOneLine(prefix: string, layout: seq<seq<string>>)
    requires OneLine(prefix) && GoodLayout(|prefix|, layout)
    ensures AllOneLine(Lines(prefix, layout))
  {
    hide Spaced, StatesNet;
    forall i | 0 <= i < |layout| ensures OneLine(Lines(prefix, layout)[i]) {
      assert LineWords(|prefix|, layout[i]);
      SpacedOneLine(layout[i]);
    }
  }
}
