/** Echomail survives Pack, a packet file and ParseMessage; its origin is the
    address its footer was written with. */
module Echomail {
  import opened Text
  import opened Charsets
  import opened Addresses
  import opened Packets
  import opened Nets
  import opened Messages
  import opened Scanning
  import opened RoundTrips

  // ---- the footer ----------------------------------------------------------------

  const ORIGIN: string := " * Origin:"

  /** The origin line fits on a screen whenever the address fits its fields. */
  lemma OriginLineWidth(origin: string, a: Addr)
    requires Fits16(a)
    ensures |OriginLine(origin, a)| <= MAX_LINE
  {
    hide String;
    StringLength(a);
  }

  /** What an address holds, as far as an origin line cares. */
  predicate InParens(addr: string) {
    forall i :: 0 <= i < |addr| ==> addr[i] != '(' && addr[i] != ' ' && addr[i] != ')' && addr[i] != '\n'
  }

  /** The last origin marker is at or after the footer's own, and wholly before
      the address, whatever the origin text holds. */
  lemma LastMarker(before: string, text: string, addr: string)
    requires InParens(addr)
    ensures var s := before + ORIGIN + " " + text + " (" + addr + ")";
            var r := LastIndex(s, ORIGIN);
            r.At? && |before| <= r.i && r.i + 10 <= |s| - |addr| - 2
  {
    hide LastIndexFrom;
    var s := before + ORIGIN + " " + text + " (" + addr + ")";
    MarkerAt(before, " " + text + " (" + addr + ")");
    SameText(before, text, addr);
    var r := LastIndex(s, ORIGIN);
    var open := |s| - |addr| - 2;
    assert s[open] == '(' && forall k :: open < k < |s| ==> s[k] != ' ';
    MarkerShape(s, r.i);
  }

  lemma SameText(before: string, text: string, addr: string)
    ensures before + ORIGIN + " " + text + " (" + addr + ")" == before + ORIGIN + (" " + text + " (" + addr + ")")
  {
  }

  lemma MarkerAt(before: string, after: string)
    ensures MatchAt(before + ORIGIN + after, ORIGIN, |before|)
  {
    var s := before + ORIGIN + after;
    assert s[|before|..|before| + 10] == ORIGIN;
  }

  lemma MarkerShape(s: string, i: nat)
    requires MatchAt(s, ORIGIN, i)
    ensures i + 10 <= |s| && s[i] == ' ' && forall k :: i <= k < i + 10 ==> s[k] != '('
  {
    var m := s[i..i + 10];
    assert m == ORIGIN && m[0] == s[i];
    assert forall k :: i <= k < i + 10 ==> s[k] == m[k - i];
  }

  lemma ParensOf(line: string, open: nat)
    requires open + 1 < |line| && line[open] == '(' && line[|line| - 1] == ')'
    requires InParens(line[open + 1..|line| - 1])
    ensures AfterLast(line, '(') == open + 1 && AfterLast(line, ')') == |line|
  {
    hide AfterLastUpTo;
    var addr := line[open + 1..|line| - 1];
    assert forall k :: open < k < |line| - 1 ==> line[k] == addr[k - open - 1];
  }

  lemma MarkedOrigin(before: string, text: string, addr: string)
    requires InParens(addr) && '\n' !in text
    ensures OriginAddr(before + ORIGIN + " " + text + " (" + addr + ")") == ParseAddr(addr)
  {
    hide AfterLastUpTo, ParseAddr, LastIndexFrom, IndexFrom;
    var s := before + ORIGIN + " " + text + " (" + addr + ")";
    LastMarker(before, text, addr);
    var i := LastIndex(s, ORIGIN).i;
    var line := s[i..];
    var open := |line| - |addr| - 2;
    assert forall k :: |before| <= k < |s| ==> s[k] != '\n';
    IndexNone(line, '\n');
    assert line[..|line|] == line;
    assert line[open] == '(' && line[|line| - 1] == ')' && line[open + 1..|line| - 1] == addr;
    ParensOf(line, open);
  }

  /** EchoFooter and OriginAddr are inverse: whatever the tear text, and for any
      origin text on one line, shortened or not. */
  lemma FooterOrigin(before: string, tear: string, origin: string, a: Addr)
    requires Fits16(a) && '\n' !in origin
    ensures OriginAddr(before + EchoFooter(tear, origin, a)) == Address(a.(domain := ""))
  {
    hide OriginAddr, ParseAddr, String, OriginLine;
    ParseOfString(a);
    StringInParens(a);
    var text := ShownText(origin, a);
    var head := before + ("--- " + tear + "\n");
    MarkedOrigin(head, text, String(a));
    Assoc(before, "--- " + tear + "\n", OriginLine(origin, a));
    OriginShape(head, text, String(a));
  }

  /** The origin text that is left when the line has been shortened. */
  lemma ShownText(origin: string, a: Addr) returns (text: string)
    requires '\n' !in origin
    ensures '\n' !in text && OriginLine(origin, a) == " * Origin: " + text + (" (" + String(a) + ")")
  {
    hide String;
    var room := MAX_LINE - 11 - |" (" + String(a) + ")"|;
    text := if |origin| > room then origin[..if room > 0 then room else 0] else origin;
  }

  lemma OriginShape(b: string, text: string, addr: string)
    ensures b + (" * Origin: " + text + (" (" + addr + ")")) == b + ORIGIN + " " + text + " (" + addr + ")"
  {
  }

  lemma StringInParens(a: Addr)
    ensures InParens(String(a))
  {
    hide String;
    GraphicString(a);
  }

  // ---- echomail --------------------------------------------------------------------

  predicate IsEchomail(m: Message) {
    OneLine(m.area) && TrimSpace(m.area) != "" && AreEntries(m.seenBy) && AreEntries(m.path) && IsSendable(m)
  }

  /** What echomail reads as at the far end. Its area is upper-cased, SEEN-BY is
      sorted without duplicates, and the destination is the packet's. */
  function EchoReceived(m: Message, w: PackedMessage, origin: Addr, pktTo: Addr): Message {
    m.(area := ToUpper(TrimSpace(m.area)), date := w.dateTime, attr := w.attr, orig := origin,
       dest := Addr(pktTo.zone, w.destNet, w.destNode, 0, ""),
       seenBy := Named(SortNets(m.seenBy)), path := Named(m.path))
  }

  lemma EchoLines(m: Message)
    requires IsEchomail(m)
    ensures AllOneLine(AllLines(m))
  {
    hide AddressLines, ControlLines, EncodeAll, IsHeaderText, Split, IsValue, AreExtras, KindOf, TrimSpace, NetLines;
    BodyHasNoCr(m);
    AddressOneLine(m);
    ControlsOneLine(m);
    BodyOneLine(m.body, m.charset);
    OneLineConcat(AddressLines(m), ControlLines(m));
    OneLineConcat(AddressLines(m) + ControlLines(m), EncodeAll(Split(m.body, '\n'), m.charset));
    NetLinesOneLine(m);
    OneLineConcat(AddressLines(m) + ControlLines(m) + EncodeAll(Split(m.body, '\n'), m.charset), NetLines(m));
  }

  lemma NetLinesOneLine(m: Message)
    requires AreEntries(m.seenBy) && AreEntries(m.path)
    ensures AllOneLine(NetLines(m))
  {
    hide Layout, Lines, AreEntries, SortNets, GoodLayout, ReadLayout, Named, OneLine, Less;
    PrefixesOneLine();
    SortNetsSorts(m.seenBy);
    LayoutOfNets(SEEN_BY, SortNets(m.seenBy));
    LayoutOfNets(PATH_LINE, m.path);
    NetsOneLine(SEEN_BY, Layout(8, SortNets(m.seenBy), [], 8, -1));
    NetsOneLine(PATH_LINE, Layout(6, m.path, [], 6, -1));
    OneLineConcat(FormatNets(SEEN_BY, SortNets(m.seenBy)), FormatNets(PATH_LINE, m.path));
  }

  lemma PrefixesOneLine()
    ensures OneLine(SEEN_BY) && OneLine(PATH_LINE)
  {
  }

  lemma NetsScan(st: Scan, m: Message)
    requires m.area != "" && AreEntries(m.seenBy) && AreEntries(m.path)
    requires st.m.seenBy == [] && st.m.path == []
    ensures ScanLines(st, NetLines(m)) == st.(m := st.m.(seenBy := Named(SortNets(m.seenBy)), path := Named(m.path)))
  {
    hide Layout, Lines, AreEntries, Step, ScanLines, GoodLayout, ReadLayout;
    SortNetsSorts(m.seenBy);
    var a, b := Layout(8, SortNets(m.seenBy), [], 8, -1), Layout(6, m.path, [], 6, -1);
    LayoutOfNets(SEEN_BY, SortNets(m.seenBy));
    LayoutOfNets(PATH_LINE, m.path);
    ScanConcat(st, Lines(SEEN_BY, a), Lines(PATH_LINE, b));
    SeenByScan(st, a);
    assert [] + ReadLayout(a) == ReadLayout(a);
    PathScan(st.(m := st.m.(seenBy := ReadLayout(a))), b);
    assert [] + ReadLayout(b) == ReadLayout(b);
  }

  lemma AreaLine(m: Message)
    requires m.area != ""
    ensures var all := AllLines(m) + [""];
            && HasArea(all) && all[0][5..] == m.area
            && Rest(all) == ControlLines(m) + EncodeAll(Split(m.body, '\n'), m.charset) + NetLines(m) + [""]
  {
    hide ControlLines, EncodeAll, Split, NetLines;
    var c, e, n := ControlLines(m), EncodeAll(Split(m.body, '\n'), m.charset), NetLines(m);
    var first := "AREA:" + m.area;
    assert AllLines(m) + [""] == [first] + (c + e + n + [""]);
    assert first[5..] == m.area;
  }

  lemma EchoScan(h: Message, m: Message)
    requires IsEchomail(m) && Fresh(Scan(h, 0, 0, [])) && h.seenBy == [] && h.path == []
    ensures ScanLines(Scan(h, 0, 0, []), ControlLines(m) + EncodeAll(Split(m.body, '\n'), m.charset) + NetLines(m) + [""])
            == Scan(h.(msgID := m.msgID, reply := m.reply, charset := m.charset, tzutc := m.tzutc, kludges := m.kludges,
                       seenBy := Named(SortNets(m.seenBy)), path := Named(m.path)),
                    0, 0, EncodeAll(Split(m.body, '\n'), m.charset) + [""])
  {
    hide ControlLines, EncodeAll, IsHeaderText, Split, IsValue, AreExtras, KindOf, Step, ScanLines, IsTextLine, NetLines,
         AreEntries, TrimSpace;
    var st := Scan(h, 0, 0, []);
    var c, e, n := ControlLines(m), EncodeAll(Split(m.body, '\n'), m.charset), NetLines(m);
    ScanConcat(st, c, e);
    ScanConcat(st, c + e, n);
    ScanConcat(st, c + e + n, [""]);
    ControlsScan(st, m);
    EncodedTextLines(Split(m.body, '\n'), m.charset);
    var s1 := WithControls(st, m);
    TextScan(s1, e);
    assert [] + e == e;
    AreaNotEmpty(m);
    var s2 := s1.(body := e);
    NetsScan(s2, m);
    var s3 := ScanLines(s2, n);
    EmptyLine();
    TextScan(s3, [""]);
  }

  lemma EmptyLine()
    ensures AreTextLines([""])
  {
  }

  lemma EchoParsed(m: Message, a: Addr, pktFrom: Addr, pktTo: Addr, cs: Charset)
    requires IsEchomail(m) && OriginAddr(m.body) == Address(a)
    ensures var w := Wire(Pack(m));
            ParseMessage(w, pktFrom, pktTo, cs) == EchoReceived(m, w, a, pktTo)
  {
    hide AddressLines, ControlLines, EncodeAll, IsHeaderText, Split, IsValue, AreExtras, ScanLines, AllLines, IsBody,
         Encode, Finish, Clip, DateField, TrimNul, PackText, TextLines, Remove, IsSendable, OriginAddr, NetLines, AreEntries,
         SortNets, ToUpper, TrimSpace, MsgIdAddr;
    var w := Wire(Pack(m));
    EchoLines(m);
    PackOnWire(m);
    AreaNotEmpty(m);
    AreaLine(m);
    var h := Header(w, pktFrom, pktTo, cs).(area := ToUpper(TrimSpace(m.area)));
    EchoScan(h, m);
    var st := ScanLines(Scan(h, 0, 0, []), Rest(AllLines(m) + [""]));
    FinishKeeps(st, w, m);
  }

  lemma AreaNotEmpty(m: Message)
    requires TrimSpace(m.area) != ""
    ensures m.area != "" && ToUpper(TrimSpace(m.area)) != ""
  {
    assert TrimSpace("") == "";
  }

  /** Echomail through every layer, with the footer Boar writes: the text comes
      back whole, PATH in order, SEEN-BY sorted, and the origin is the footer's
      address. */
  lemma EchomailRoundTrip(p: Packet, now: Stamp, i: nat, m: Message, before: string, tear: string, origin: string, a: Addr,
                          cs: Charset)
    requires i < |p.messages| && p.messages[i] == Pack(m) && IsEchomail(m)
    requires forall j :: 0 <= j <= i ==> Readable(p.messages[j])
    requires m.body == before + EchoFooter(tear, origin, a) && Fits16(a) && '\n' !in origin
    ensures var r := ReadPacket(PacketBytes(p, now));
            && r.Read? && i < |r.packet.messages|
            && ParseMessage(r.packet.messages[i], r.packet.from, r.packet.to, cs)
               == EchoReceived(m, Wire(Pack(m)), a.(domain := ""), r.packet.to)
  {
    hide ReadPacket, PacketBytes, ParseMessage, IsEchomail, EchoReceived, Pack, Wire, WireHeader, Readable, EchoFooter, OriginAddr;
    ReadOfWritten(p, now);
    assert i < |Delivered(p.messages)|;
    FooterOrigin(before, tear, origin, a);
    HeaderTo(p, now);
    EchoParsed(m, a.(domain := ""), WireHeader(p, now).from, WireHeader(p, now).to, cs);
  }
}
