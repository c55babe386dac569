/** Netmail and echomail survive Pack, a packet file and ParseMessage. */
module RoundTrips {
  import opened Text
  import opened Charsets
  import opened Addresses
  import opened Packets
  import opened Nets
  import opened Messages
  import opened Scanning

  // ---- header texts --------------------------------------------------------------

  lemma TextKept(s: string, cs: Charset, limit: nat)
    requires IsHeaderText(s, cs, limit) && limit >= 1
    ensures Clip(Encode(s, cs), limit - 1) == Encode(s, cs)
    ensures TrimText(Decode(Encode(s, cs), cs)) == s
  {
    hide Encode, Decode;
    DecodeOfEncode(s, cs);
    EncodeBytes(s, cs);
    RemoveNone(Encode(s, cs), NUL);
  }

  /** What a reader is given of a packed message. */
  lemma PackOnWire(m: Message)
    requires IsSendable(m) && AllOneLine(AllLines(m))
    ensures var w := Wire(Pack(m));
            && w.to == Encode(m.to, m.charset) && w.from == Encode(m.from, m.charset)
            && w.subject == Encode(m.subject, m.charset)
            && w.text == Terminated(AllLines(m), '\r') && TextLines(w.text) == AllLines(m) + [""]
  {
    hide Encode, PackText, AllLines, IsBody, IsValue, AreExtras, Terminated, TextLines, IsHeaderText;
    TextKept(m.to, m.charset, MAX_NAME_LEN);
    TextKept(m.from, m.charset, MAX_NAME_LEN);
    TextKept(m.subject, m.charset, MAX_SUBJECT_LEN);
    BodyHasNoCr(m);
    PackTextLines(m);
    LinesOfText(AllLines(m));
  }

  lemma BodyHasNoCr(m: Message)
    requires IsBody(m.body, m.charset)
    ensures '\r' !in m.body && NUL !in m.body
  {
  }

  /** The last step of ParseMessage, once the body lines are known. */
  lemma FinishKeeps(st: Scan, pm: PackedMessage, m: Message)
    requires IsSendable(m) && st.m.charset == m.charset
    requires st.body == EncodeAll(Split(m.body, '\n'), m.charset) + [""]
    requires pm.to == Encode(m.to, m.charset) && pm.from == Encode(m.from, m.charset)
    requires pm.subject == Encode(m.subject, m.charset)
    ensures var plain := st.m.(orig := st.m.orig.(point := st.fmpt), dest := st.m.dest.(point := st.topt),
                               from := m.from, to := m.to, subject := m.subject, body := m.body);
            Finish(st, pm) == if st.m.area != "" then plain.(orig := EchoOrigin(plain)) else plain
  {
    hide Encode, Decode, IsBody, IsHeaderText, EchoOrigin, DropBlank, Split, IsValue, AreExtras;
    TextKept(m.to, m.charset, MAX_NAME_LEN);
    TextKept(m.from, m.charset, MAX_NAME_LEN);
    TextKept(m.subject, m.charset, MAX_SUBJECT_LEN);
    BodyKept(m.body, m.charset);
    DecodeOfEncode(m.body, m.charset);
  }

  // ---- netmail --------------------------------------------------------------------

  predicate IsNetmail(m: Message) {
    m.area == "" && Fits16(m.orig) && Fits16(m.dest) && IsSendable(m)
  }

  /** What netmail reads as at the far end: itself, but for the domains its
      addresses never carried and the echomail lines netmail does not have. */
  function Received(m: Message, date: Bytes, attr: int): Message {
    m.(orig := m.orig.(domain := ""), dest := m.dest.(domain := ""), date := date, attr := attr, seenBy := [], path := [])
  }

  lemma NetmailLines(m: Message)
    requires IsNetmail(m)
    ensures AllOneLine(AllLines(m))
    ensures !HasArea(AllLines(m) + [""])
  {
    hide AddressLines, ControlLines, EncodeAll, IsHeaderText, Split, IsValue, AreExtras, Fits16, KindOf;
    BodyHasNoCr(m);
    AddressOneLine(m);
    ControlsOneLine(m);
    BodyOneLine(m.body, m.charset);
    OneLineConcat(AddressLines(m), ControlLines(m));
    OneLineConcat(AddressLines(m) + ControlLines(m), EncodeAll(Split(m.body, '\n'), m.charset));
    FirstIsIntl(m);
  }

  lemma FirstIsIntl(m: Message)
    requires m.area == ""
    ensures |AddressLines(m)| >= 1 && AddressLines(m)[0] != "" && AddressLines(m)[0][0] == SOH
  {
    hide String, PointLine;
  }

  lemma AddressScan(st: Scan, m: Message)
    requires m.area == "" && Fits16(m.orig) && Fits16(m.dest) && st.fmpt == 0 && st.topt == 0
    ensures ScanLines(st, AddressLines(m))
            == Scan(st.m.(dest := st.m.dest.(zone := m.dest.zone, net := m.dest.net, node := m.dest.node),
                          orig := st.m.orig.(zone := m.orig.zone, net := m.orig.net, node := m.orig.node)),
                    m.orig.point, m.dest.point, st.body)
  {
    hide IntlLine, PointLine, Step, ScanLines, IsName, KindOf, Itoa;
    var a, b, c := [IntlLine(m)], PointLine("FMPT", m.orig.point), PointLine("TOPT", m.dest.point);
    ScanConcat(st, a, b);
    ScanConcat(st, a + b, c);
    IntlScan(st, m);
    AddressNames();
    var s1 := ScanLines(st, a);
    PointScan(s1, "FMPT", m.orig.point);
    AtoiOfItoa(m.orig.point);
    PointScan(s1.(fmpt := m.orig.point), "TOPT", m.dest.point);
    AtoiOfItoa(m.dest.point);
  }

  lemma NetmailScan(h: Message, m: Message)
    requires IsNetmail(m) && Fresh(Scan(h, 0, 0, []))
    ensures ScanLines(Scan(h, 0, 0, []), AllLines(m) + [""])
            == Scan(h.(dest := h.dest.(zone := m.dest.zone, net := m.dest.net, node := m.dest.node),
                       orig := h.orig.(zone := m.orig.zone, net := m.orig.net, node := m.orig.node),
                       msgID := m.msgID, reply := m.reply, charset := m.charset, tzutc := m.tzutc, kludges := m.kludges),
                    m.orig.point, m.dest.point, EncodeAll(Split(m.body, '\n'), m.charset) + [""])
  {
    hide AddressLines, ControlLines, EncodeAll, IsHeaderText, Split, IsValue, AreExtras, Fits16, KindOf, Step, ScanLines, IsTextLine;
    var st := Scan(h, 0, 0, []);
    var a, c, e := AddressLines(m), ControlLines(m), EncodeAll(Split(m.body, '\n'), m.charset);
    NetmailShape(m);
    ScanConcat(st, a, c);
    ScanConcat(st, a + c, e + [""]);
    AddressScan(st, m);
    var s1 := ScanLines(st, a);
    ControlsScan(s1, m);
    EncodedTextLines(Split(m.body, '\n'), m.charset);
    WithEmpty(e);
    TextScan(WithControls(s1, m), e + [""]);
    assert [] + (e + [""]) == e + [""];
  }

  lemma NetmailShape(m: Message)
    requires m.area == ""
    ensures AllLines(m) + [""] == AddressLines(m) + ControlLines(m) + (EncodeAll(Split(m.body, '\n'), m.charset) + [""])
  {
    hide AddressLines, ControlLines, EncodeAll, Split;
    Assoc(AddressLines(m) + ControlLines(m), EncodeAll(Split(m.body, '\n'), m.charset), [""]);
    var x := AddressLines(m) + ControlLines(m) + EncodeAll(Split(m.body, '\n'), m.charset);
    assert x + [] == x;
  }

  lemma WithEmpty(e: seq<Bytes>)
    requires AreTextLines(e)
    ensures AreTextLines(e + [""])
  {
  }

  /** One message: what ParseMessage makes of Pack's output after the wire. */
  lemma NetmailParsed(m: Message, pktFrom: Addr, pktTo: Addr, cs: Charset)
    requires IsNetmail(m)
    ensures var w := Wire(Pack(m));
            ParseMessage(w, pktFrom, pktTo, cs) == Received(m, w.dateTime, w.attr)
  {
    hide AddressLines, ControlLines, EncodeAll, IsHeaderText, Split, IsValue, AreExtras, Fits16, ScanLines, AllLines, IsBody,
         Encode, Finish, Clip, DateField, TrimNul, PackText, TextLines, Remove, IsSendable;
    var w := Wire(Pack(m));
    NetmailLines(m);
    PackOnWire(m);
    var h := Header(w, pktFrom, pktTo, cs);
    NetmailScan(h, m);
    var st := ScanLines(Scan(h, 0, 0, []), AllLines(m) + [""]);
    FinishKeeps(st, w, m);
  }

  /** Netmail through every layer: any message of a written packet that comes
      before the first oversized one is read back as it was sent. */
  lemma NetmailRoundTrip(p: Packet, now: Stamp, i: nat, m: Message, cs: Charset)
    requires i < |p.messages| && p.messages[i] == Pack(m) && IsNetmail(m)
    requires forall j :: 0 <= j <= i ==> Readable(p.messages[j])
    requires |m.date| == 19 && m.date[18] != NUL && 0 <= m.attr <= 65535
    ensures var r := ReadPacket(PacketBytes(p, now));
            && r.Read? && i < |r.packet.messages|
            && ParseMessage(r.packet.messages[i], r.packet.from, r.packet.to, cs) == Received(m, m.date, m.attr)
  {
    hide ReadPacket, PacketBytes, ParseMessage, IsNetmail, Received, Pack, Wire, WireHeader, Readable;
    ReadOfWritten(p, now);
    assert i < |Delivered(p.messages)|;
    NetmailParsed(m, WireHeader(p, now).from, WireHeader(p, now).to, cs);
    HeaderTo(p, now);
    DateAndAttr(m);
  }

  lemma HeaderTo(p: Packet, now: Stamp)
    ensures forall ms :: WireHeader(p, now).(messages := ms).from == WireHeader(p, now).from
                         && WireHeader(p, now).(messages := ms).to == WireHeader(p, now).to
  {
  }

  lemma DateAndAttr(m: Message)
    requires |m.date| == 19 && m.date[18] != NUL && 0 <= m.attr <= 65535
    ensures Wire(Pack(m)).dateTime == m.date && Wire(Pack(m)).attr == m.attr
  {
    hide PackText, Clip, Remove, Encode;
    var f := DateField(m.date);
    assert f[19] == NUL && f[..|f| - 1] == m.date;
    assert TrimNul(f) == TrimNul(m.date);
  }
}
