/**
 Messages other programs wrote: what ParseMessage of internal/ftn/message.go makes of
 any lines in any order, and where the addresses come from when a message does not say.
 */
module ForeignMessages {
  import opened Text
  import opened Charsets
  import opened Addresses
  import opened Packets
  import opened Nets
  import opened Messages
  import opened Scanning

  // ---- each field, line by line --------------------------------------------------------

  predicate IsControl(l: Bytes) { l != "" && l[0] == SOH }

  /** Whether a line is the control line of that name. */
  predicate Has(l: Bytes, name: Bytes) { IsControl(l) && SplitKludge(l[1..]).name == name }

  /** The value of the last control line of that name. */
  function LastValue(lines: seq<Bytes>, name: Bytes, def: Bytes): Bytes {
    if lines == [] then def
    else
      var l := lines[|lines| - 1];
      if Has(l, name) then SplitKludge(l[1..]).value else LastValue(lines[..|lines| - 1], name, def)
  }

  /** The charset of the last CHRS or CHARSET line that names a known one. */
  function LastCharset(lines: seq<Bytes>, def: Charset): Charset {
    if lines == [] then def
    else
      var l := lines[|lines| - 1];
      if (Has(l, "CHRS") || Has(l, "CHARSET")) && ParseCHRS(SplitKludge(l[1..]).value).Known? then
        ParseCHRS(SplitKludge(l[1..]).value).cs
      else LastCharset(lines[..|lines| - 1], def)
  }

  function TextOnly(lines: seq<Bytes>): seq<Bytes> {
    if lines == [] then []
    else TextOnly(lines[..|lines| - 1]) + if IsTextLine(lines[|lines| - 1]) then [lines[|lines| - 1]] else []
  }

  const NAMES: set<string> := {"INTL", "FMPT", "TOPT", "MSGID", "REPLY", "CHRS", "CHARSET", "TZUTC", "PATH"}

  /** The control lines this program has no field for, in order. */
  function OtherControls(lines: seq<Bytes>): seq<Kludge> {
    if lines == [] then []
    else
      var l := lines[|lines| - 1];
      OtherControls(lines[..|lines| - 1])
      + if IsControl(l) && SplitKludge(l[1..]).name !in NAMES then [SplitKludge(l[1..])] else []
  }

  function AllNets(lines: seq<Bytes>, path: bool): seq<Net2D> {
    if lines == [] then []
    else
      var l := lines[|lines| - 1];
      AllNets(lines[..|lines| - 1], path)
      + if path && Has(l, "PATH") then ReadNets(SplitKludge(l[1..]).value)
        else if !path && !IsControl(l) && "SEEN-BY:" <= l then ReadNets(l[8..])
        else []
  }

  ghost predicate FieldsAre(st: Scan, lines: seq<Bytes>, t: Scan) {
    && t.m.msgID == LastValue(lines, "MSGID", st.m.msgID) && t.m.reply == LastValue(lines, "REPLY", st.m.reply)
    && t.m.tzutc == LastValue(lines, "TZUTC", st.m.tzutc) && t.m.charset == LastCharset(lines, st.m.charset)
    && t.body == st.body + TextOnly(lines) && t.m.kludges == st.m.kludges + OtherControls(lines)
    && t.m.seenBy == st.m.seenBy + AllNets(lines, false) && t.m.path == st.m.path + AllNets(lines, true)
  }

  ghost predicate RestIs(st: Scan, t: Scan) {
    && t.m.area == st.m.area && t.m.date == st.m.date && t.m.attr == st.m.attr
    && t.m.from == st.m.from && t.m.to == st.m.to && t.m.subject == st.m.subject && t.m.body == st.m.body
    && t.m.orig.point == st.m.orig.point && t.m.dest.point == st.m.dest.point
    && t.m.orig.domain == st.m.orig.domain && t.m.dest.domain == st.m.dest.domain
  }

  lemma NameKinds(name: Bytes)
    ensures KindOf(name).Other? <==> name !in NAMES
    ensures KindOf(name).Intl? <==> name == "INTL"
    ensures KindOf(name).Fmpt? <==> name == "FMPT"
    ensures KindOf(name).Topt? <==> name == "TOPT"
    ensures KindOf(name).MsgId? <==> name == "MSGID"
    ensures KindOf(name).Reply? <==> name == "REPLY"
    ensures KindOf(name).Chrs? <==> name == "CHRS" || name == "CHARSET"
    ensures KindOf(name).TzUtc? <==> name == "TZUTC"
    ensures KindOf(name).Path? <==> name == "PATH"
  {
  }

  lemma LineIs(l: Bytes)
    ensures IsTextLine(l) <==> !IsControl(l) && !("SEEN-BY:" <= l)
  {
  }

  lemma OneField(a: Scan, l: Bytes)
    ensures var t := Step(a, l);
            && t.m.msgID == (if Has(l, "MSGID") then SplitKludge(l[1..]).value else a.m.msgID)
            && t.m.reply == (if Has(l, "REPLY") then SplitKludge(l[1..]).value else a.m.reply)
            && t.m.tzutc == (if Has(l, "TZUTC") then SplitKludge(l[1..]).value else a.m.tzutc)
            && t.m.charset == (if (Has(l, "CHRS") || Has(l, "CHARSET")) && ParseCHRS(SplitKludge(l[1..]).value).Known? then
                                 ParseCHRS(SplitKludge(l[1..]).value).cs else a.m.charset)
            && RestIs(a, t)
  {
    hide SplitKludge, KindOf, ParseCHRS, ReadNets, Atoi, Relocate, Fields;
    if IsControl(l) {
      NameKinds(SplitKludge(l[1..]).name);
      Moved(a.m, SplitKludge(l[1..]).value);
    }
  }

  lemma OneList(a: Scan, l: Bytes)
    ensures var t := Step(a, l);
            && t.body == (if IsTextLine(l) then a.body + [l] else a.body)
            && t.m.kludges == (if IsControl(l) && SplitKludge(l[1..]).name !in NAMES then a.m.kludges + [SplitKludge(l[1..])] else a.m.kludges)
            && t.m.seenBy == (if !IsControl(l) && "SEEN-BY:" <= l then a.m.seenBy + ReadNets(l[8..]) else a.m.seenBy)
            && t.m.path == (if Has(l, "PATH") then a.m.path + ReadNets(SplitKludge(l[1..]).value) else a.m.path)
            && t.fmpt == (if Has(l, "FMPT") then Atoi(SplitKludge(l[1..]).value).value else a.fmpt)
            && t.topt == (if Has(l, "TOPT") then Atoi(SplitKludge(l[1..]).value).value else a.topt)
  {
    hide SplitKludge, KindOf, ParseCHRS, ReadNets, Atoi, Relocate, Fields;
    LineIs(l);
    if IsControl(l) {
      NameKinds(SplitKludge(l[1..]).name);
    }
  }

  lemma Moved(m: Message, v: Bytes)
    ensures var t := ApplyINTL(m, v);
            t == m.(orig := t.orig, dest := t.dest) && t.orig.point == m.orig.point && t.dest.point == m.dest.point
            && t.orig.domain == m.orig.domain && t.dest.domain == m.dest.domain
  {
    hide Fields, ParseTrimmed;
  }

  /** Whatever lines a message has, in whatever order: each field is that of the last
      control line for it, unknown control lines and the lists of nets are kept in order,
      and the text is the other lines. */
  lemma {:induction false} EveryField(st: Scan, lines: seq<Bytes>)
    ensures FieldsAre(st, lines, ScanLines(st, lines)) && RestIs(st, ScanLines(st, lines))
    decreases |lines|
  {
    hide Step, Has, IsControl, SplitKludge, ReadNets, ParseCHRS, IsTextLine;
    if lines == [] {
      NothingScanned(st);
    } else {
      var l, before := lines[|lines| - 1], lines[..|lines| - 1];
      EveryField(st, before);
      var a := ScanLines(st, before);
      LastScanned(st, lines);
      OneField(a, l);
      OneList(a, l);
      ListsGrow(st, before, l, a);
    }
  }

  lemma NothingScanned(st: Scan)
    ensures FieldsAre(st, [], ScanLines(st, [])) && RestIs(st, ScanLines(st, []))
  {
  }

  lemma LastScanned(st: Scan, lines: seq<Bytes>)
    requires lines != []
    ensures ScanLines(st, lines) == Step(ScanLines(st, lines[..|lines| - 1]), lines[|lines| - 1])
  {
    hide Step;
    var l, before := lines[|lines| - 1], lines[..|lines| - 1];
    assert lines == before + [l];
    ScanConcat(st, before, [l]);
    ScanOne(ScanLines(st, before), l);
  }

  lemma ListsGrow(st: Scan, before: seq<Bytes>, l: Bytes, a: Scan)
    requires FieldsAre(st, before, a)
    ensures (if IsTextLine(l) then a.body + [l] else a.body) == st.body + TextOnly(before + [l])
    ensures (if IsControl(l) && SplitKludge(l[1..]).name !in NAMES then a.m.kludges + [SplitKludge(l[1..])] else a.m.kludges)
            == st.m.kludges + OtherControls(before + [l])
    ensures (if !IsControl(l) && "SEEN-BY:" <= l then a.m.seenBy + ReadNets(l[8..]) else a.m.seenBy)
            == st.m.seenBy + AllNets(before + [l], false)
    ensures (if Has(l, "PATH") then a.m.path + ReadNets(SplitKludge(l[1..]).value) else a.m.path)
            == st.m.path + AllNets(before + [l], true)
  {
    hide SplitKludge, ReadNets, IsTextLine, LastValue, LastCharset, TextOnly, OtherControls, AllNets;
    TextGrows(before, l);
    OthersGrow(before, l);
    NetsGrow(before, l);
    More(st.body, TextOnly(before), if IsTextLine(l) then [l] else []);
    More(st.m.kludges, OtherControls(before), if IsControl(l) && SplitKludge(l[1..]).name !in NAMES then [SplitKludge(l[1..])] else []);
    More(st.m.seenBy, AllNets(before, false), if !IsControl(l) && "SEEN-BY:" <= l then ReadNets(l[8..]) else []);
    More(st.m.path, AllNets(before, true), if Has(l, "PATH") then ReadNets(SplitKludge(l[1..]).value) else []);
  }

  lemma More<T>(a: seq<T>, b: seq<T>, c: seq<T>)
    ensures a + (b + c) == a + b + c && a + b + [] == a + b
  {
  }

  lemma TextGrows(before: seq<Bytes>, l: Bytes)
    ensures TextOnly(before + [l]) == TextOnly(before) + if IsTextLine(l) then [l] else []
  {
    hide IsTextLine;
    assert (before + [l])[..|before|] == before;
  }

  lemma OthersGrow(before: seq<Bytes>, l: Bytes)
    ensures OtherControls(before + [l])
            == OtherControls(before) + if IsControl(l) && SplitKludge(l[1..]).name !in NAMES then [SplitKludge(l[1..])] else []
  {
    hide SplitKludge;
    assert (before + [l])[..|before|] == before;
  }

  lemma NetsGrow(before: seq<Bytes>, l: Bytes)
    ensures AllNets(before + [l], false)
            == AllNets(before, false) + if !IsControl(l) && "SEEN-BY:" <= l then ReadNets(l[8..]) else []
    ensures AllNets(before + [l], true) == AllNets(before, true) + if Has(l, "PATH") then ReadNets(SplitKludge(l[1..]).value) else []
  {
    hide SplitKludge, ReadNets;
    assert (before + [l])[..|before|] == before;
  }

  // ---- points and addresses ------------------------------------------------------------

  /** The number of the last control line of that name, or 0. */
  function PointOf(lines: seq<Bytes>, name: Bytes): int { Atoi(LastValue(lines, name, "0")).value }

  /** The points are the numbers of the last FMPT and the last TOPT line, if any. */
  lemma {:induction false} EveryPoint(st: Scan, lines: seq<Bytes>)
    requires st.fmpt == 0 && st.topt == 0
    ensures var t := ScanLines(st, lines); t.fmpt == PointOf(lines, "FMPT") && t.topt == PointOf(lines, "TOPT")
    decreases |lines|
  {
    hide Step, Has, IsControl, SplitKludge, ReadNets, ParseCHRS, IsTextLine, Atoi;
    if lines == [] {
      NoPoint();
    } else {
      var l, before := lines[|lines| - 1], lines[..|lines| - 1];
      EveryPoint(st, before);
      LastScanned(st, lines);
      OneList(ScanLines(st, before), l);
    }
  }

  lemma NoPoint()
    ensures Atoi("0").value == 0
  {
  }

  /** Without an INTL line the zone, net and node stay as they were. */
  lemma {:induction false} NoIntl(st: Scan, lines: seq<Bytes>)
    requires forall l :: l in lines ==> !Has(l, "INTL")
    ensures ScanLines(st, lines).m.orig == st.m.orig && ScanLines(st, lines).m.dest == st.m.dest
    decreases |lines|
  {
    hide Step, Has;
    if lines != [] {
      assert lines[0] in lines && forall l :: l in lines[1..] ==> l in lines;
      NoIntlStep(st, lines[0]);
      NoIntl(Step(st, lines[0]), lines[1..]);
    }
  }

  lemma NoIntlStep(st: Scan, l: Bytes)
    requires !Has(l, "INTL")
    ensures Step(st, l).m.orig == st.m.orig && Step(st, l).m.dest == st.m.dest
  {
    hide SplitKludge, ParseCHRS, ReadNets, Atoi;
    if IsControl(l) {
      NameKinds(SplitKludge(l[1..]).name);
    }
  }

  /** The lines of a message after its AREA line. */
  function LinesOf(pm: PackedMessage): seq<Bytes> { Rest(TextLines(pm.text)) }

  predicate IsEcho(pm: PackedMessage) { HasArea(TextLines(pm.text)) && TrimSpace(TextLines(pm.text)[0][5..]) != "" }

  /** Netmail that names no zone comes from the zone of the packet's writer and goes to
      the zone of the packet's reader; net and node are in the message header. */
  lemma NetmailWithoutIntl(pm: PackedMessage, pktFrom: Addr, pktTo: Addr, cs: Charset)
    requires !IsEcho(pm) && forall l :: l in LinesOf(pm) ==> !Has(l, "INTL")
    ensures var m := ParseMessage(pm, pktFrom, pktTo, cs);
            && m.area == ""
            && m.orig == Addr(pktFrom.zone, pm.origNet, pm.origNode, PointOf(LinesOf(pm), "FMPT"), "")
            && m.dest == Addr(pktTo.zone, pm.destNet, pm.destNode, PointOf(LinesOf(pm), "TOPT"), "")
  {
    hide Has, ScanLines, TextLines, TrimSpace, HasArea, Decode, DropBlank, EchoOrigin, Rest;
    var st := Opening(Header(pm, pktFrom, pktTo, cs), TextLines(pm.text));
    OpeningArea(pm, pktFrom, pktTo, cs);
    NoIntl(st, LinesOf(pm));
    EveryPoint(st, LinesOf(pm));
    EveryField(st, LinesOf(pm));
    RestArea(st, ScanLines(st, LinesOf(pm)));
  }

  lemma OpeningArea(pm: PackedMessage, pktFrom: Addr, pktTo: Addr, cs: Charset)
    ensures var h := Header(pm, pktFrom, pktTo, cs);
            var st := Opening(h, TextLines(pm.text));
            && (st.m.area != "" <==> IsEcho(pm)) && st.m.orig == h.orig && st.m.dest == h.dest && st.fmpt == 0 && st.topt == 0
            && st.m.msgID == "" && st.body == []
  {
    hide TextLines, TrimSpace;
  }

  lemma RestArea(a: Scan, b: Scan)
    requires RestIs(a, b)
    ensures a.m.area == b.m.area
  {
  }

  /** Echomail without an origin line comes from the address its MSGID begins with, if it
      is an address and one word, and otherwise from where the packet says. */
  lemma EchomailWithoutOrigin(pm: PackedMessage, pktFrom: Addr, pktTo: Addr, cs: Charset)
    requires IsEcho(pm) && forall l :: l in LinesOf(pm) ==> !Has(l, "INTL")
    requires var body := ParseMessage(pm, pktFrom, pktTo, cs).body;
             forall i :: 0 <= i <= |body| ==> !MatchAt(body, " * Origin:", i)
    ensures var m, msgID := ParseMessage(pm, pktFrom, pktTo, cs), LastValue(LinesOf(pm), "MSGID", "");
            && m.dest == Addr(pktTo.zone, pm.destNet, pm.destNode, PointOf(LinesOf(pm), "TOPT"), "")
            && (|Fields(msgID)| == 2 && ParseTrimmed(Fields(msgID)[0]).Address? ==>
                  m.orig == ParseTrimmed(Fields(msgID)[0]).addr)
            && (|Fields(msgID)| != 2 || ParseTrimmed(Fields(msgID)[0]).NotAddress? ==>
                  m.orig == Addr(pktFrom.zone, pm.origNet, pm.origNode, PointOf(LinesOf(pm), "FMPT"), ""))
  {
    hide Has, ScanLines, TextLines, TrimSpace, HasArea, Rest, MatchAt, ParseTrimmed, Fields, Finish, EchoOrigin, ParseMessage,
         LastValue, Opening, IsEcho;
    var st := Opening(Header(pm, pktFrom, pktTo, cs), TextLines(pm.text));
    var t := ScanLines(st, LinesOf(pm));
    OpeningArea(pm, pktFrom, pktTo, cs);
    NoIntl(st, LinesOf(pm));
    EveryPoint(st, LinesOf(pm));
    EveryField(st, LinesOf(pm));
    RestArea(st, t);
    ParsedIs(pm, pktFrom, pktTo, cs);
    var plain := FinishedEcho(t, pm);
    NoOriginLine(plain);
  }

  lemma ParsedIs(pm: PackedMessage, pktFrom: Addr, pktTo: Addr, cs: Charset)
    ensures ParseMessage(pm, pktFrom, pktTo, cs)
            == Finish(ScanLines(Opening(Header(pm, pktFrom, pktTo, cs), TextLines(pm.text)), LinesOf(pm)), pm)
  {
    hide ScanLines, Opening, Finish, TextLines;
  }

  lemma FinishedEcho(t: Scan, pm: PackedMessage) returns (plain: Message)
    requires t.m.area != ""
    ensures Finish(t, pm) == plain.(orig := EchoOrigin(plain))
    ensures plain.msgID == t.m.msgID && plain.orig == t.m.orig.(point := t.fmpt) && plain.dest == t.m.dest.(point := t.topt)
  {
    hide Decode, DropBlank, EchoOrigin, TrimText, Join;
    plain := t.m.(orig := t.m.orig.(point := t.fmpt), dest := t.m.dest.(point := t.topt),
                  from := TrimText(Decode(pm.from, t.m.charset)), to := TrimText(Decode(pm.to, t.m.charset)),
                  subject := TrimText(Decode(pm.subject, t.m.charset)),
                  body := Decode(Join(DropBlank(t.body), '\n'), t.m.charset));
  }

  lemma NoOriginLine(m: Message)
    requires forall i :: 0 <= i <= |m.body| ==> !MatchAt(m.body, " * Origin:", i)
    ensures var f := Fields(m.msgID);
            EchoOrigin(m) == if |f| == 2 && ParseTrimmed(f[0]).Address? then ParseTrimmed(f[0]).addr else m.orig
  {
    hide ParseTrimmed, Fields;
  }
}
