/** ParseMessage and Pack with their loops, proved against module Messages. */
module MessageIO {
  import opened Text
  import opened Charsets
  import opened Addresses
  import opened Packets
  import opened Nets
  import opened Messages

  method Parse(pm: PackedMessage, pktFrom: Addr, pktTo: Addr, defaultCS: Charset) returns (m: Message)
    ensures m == ParseMessage(pm, pktFrom, pktTo, defaultCS)
  {
    hide Finish, Control, SplitKludge, Header, KindOf, Split;
    m := Header(pm, pktFrom, pktTo, defaultCS);
    var lines := TextLines(pm.text);
    if "AREA:" <= lines[0] {
      m := m.(area := ToUpper(TrimSpace(lines[0][5..])));
      lines := lines[1..];
    }
    var st := ReadLines(Scan(m, 0, 0, []), lines);
    m := Close(st, pm);
  }

  /** The loop over the lines: control lines and SEEN-BY into the message, the
      rest into the body. */
  method ReadLines(start: Scan, lines: seq<Bytes>) returns (st: Scan)
    ensures st == ScanLines(start, lines)
  {
    hide SplitKludge, KindOf, ApplyINTL, ParseCHRS, ReadNets;
    var m, fmpt, topt, body := start.m, start.fmpt, start.topt, start.body;
    for i := 0 to |lines|
      invariant ScanLines(Scan(m, fmpt, topt, body), lines[i..]) == ScanLines(start, lines)
    {
      var l := lines[i];
      assert lines[i..][0] == l && lines[i..][1..] == lines[i + 1..];
      if l != "" && l[0] == SOH {
        var k := SplitKludge(l[1..]);
        match KindOf(k.name)
        case Intl => m := ApplyINTL(m, k.value);
        case Fmpt => fmpt := Atoi(k.value).value;
        case Topt => topt := Atoi(k.value).value;
        case MsgId => m := m.(msgID := k.value);
        case Reply => m := m.(reply := k.value);
        case Chrs =>
          match ParseCHRS(k.value) {
            case Known(cs) => m := m.(charset := cs);
            case Unknown =>
          }
        case TzUtc => m := m.(tzutc := k.value);
        case Path => m := m.(path := m.path + ReadNets(k.value));
        case Other => m := m.(kludges := m.kludges + [k]);
      } else if SEEN_BY <= l {
        m := m.(seenBy := m.seenBy + ReadNets(l[8..]));
      } else {
        body := body + [l];
      }
    }
    return Scan(m, fmpt, topt, body);
  }

  /** What follows the loop: blank last lines go, the charset is known. */
  method Close(st: Scan, pm: PackedMessage) returns (m: Message)
    ensures m == Finish(st, pm)
  {
    hide Decode, TrimText, Join, OriginAddr, MsgIdAddr;
    m := st.m.(orig := st.m.orig.(point := st.fmpt), dest := st.m.dest.(point := st.topt));
    var body := st.body;
    while body != [] && Blank(body[|body| - 1])
      invariant DropBlank(body) == DropBlank(st.body)
      decreases |body|
    {
      body := body[..|body| - 1];
    }
    m := m.(from := TrimText(Decode(pm.from, m.charset)));
    m := m.(to := TrimText(Decode(pm.to, m.charset)));
    m := m.(subject := TrimText(Decode(pm.subject, m.charset)));
    m := m.(body := Decode(Join(body, '\n'), m.charset));
    if m.area != "" {
      match OriginAddr(m.body) {
        case Address(a) => m := m.(orig := a);
        case NotAddress =>
          match MsgIdAddr(m.msgID)
          case Address(a) => m := m.(orig := a);
          case NotAddress =>
      }
    }
  }

  /** Pack: the text is built line by line in a buffer. */
  method PackMessage(m: Message) returns (pm: PackedMessage)
    ensures pm == Pack(m)
  {
    hide IntlLine, KludgeLine, PointLine, BodyBytes, FormatNets, Encode, KludgeLines;
    var b: Bytes := "";
    if m.area != "" {
      b := AppendLines(b, ["AREA:" + m.area]);
    } else {
      b := AppendLines(b, [IntlLine(m)]);
      b := AppendLines(b, PointLine("FMPT", m.orig.point));
      b := AppendLines(b, PointLine("TOPT", m.dest.point));
      Appended3([IntlLine(m)], PointLine("FMPT", m.orig.point), PointLine("TOPT", m.dest.point));
    }
    assert b == Terminated(AddressLines(m), '\r') by {
      assert "" + Terminated(["AREA:" + m.area], '\r') == Terminated(["AREA:" + m.area], '\r');
    }
    ghost var head := b;
    b := AppendLines(b, KludgeLine("MSGID", m.msgID));
    b := AppendLines(b, KludgeLine("REPLY", m.reply));
    b := AppendLines(b, KludgeLine("CHRS", CHRS(m.charset)));
    b := AppendLines(b, KludgeLine("TZUTC", m.tzutc));
    b := AppendLines(b, KludgeLines(m.kludges));
    Appended5(head, KludgeLine("MSGID", m.msgID), KludgeLine("REPLY", m.reply), KludgeLine("CHRS", CHRS(m.charset)),
              KludgeLine("TZUTC", m.tzutc), KludgeLines(m.kludges));
    TerminatedConcat(AddressLines(m), ControlLines(m), '\r');
    b := b + BodyBytes(m) + "\r";
    ghost var text := b;
    if m.area != "" {
      b := AppendLines(b, FormatNets(SEEN_BY, SortNets(m.seenBy)));
      b := AppendLines(b, FormatNets(PATH_LINE, m.path));
      TerminatedConcat(FormatNets(SEEN_BY, SortNets(m.seenBy)), FormatNets(PATH_LINE, m.path), '\r');
      Assoc(text, Terminated(FormatNets(SEEN_BY, SortNets(m.seenBy)), '\r'), Terminated(FormatNets(PATH_LINE, m.path), '\r'));
    } else {
      assert text + Terminated([], '\r') == text;
    }
    assert b == PackText(m);
    return PackedMessage(m.orig.node, m.orig.net, m.dest.node, m.dest.net, m.attr, 0, m.date,
                         Encode(m.to, m.charset), Encode(m.from, m.charset), Encode(m.subject, m.charset), b);
  }

  method AppendLines(buf: Bytes, lines: seq<Bytes>) returns (b: Bytes)
    ensures b == buf + Terminated(lines, '\r')
  {
    b := buf;
    for i := 0 to |lines|
      invariant b + Terminated(lines[i..], '\r') == buf + Terminated(lines, '\r')
    {
      assert lines[i..][1..] == lines[i + 1..];
      Assoc(b, lines[i] + "\r", Terminated(lines[i + 1..], '\r'));
      b := b + (lines[i] + "\r");
    }
  }

  lemma Appended3(x: seq<Bytes>, y: seq<Bytes>, z: seq<Bytes>)
    ensures "" + Terminated(x, '\r') + Terminated(y, '\r') + Terminated(z, '\r') == Terminated(x + y + z, '\r')
  {
    hide Terminated;
    TerminatedConcat(x, y, '\r');
    TerminatedConcat(x + y, z, '\r');
    assert "" + Terminated(x, '\r') == Terminated(x, '\r');
  }

  lemma Appended5(b: Bytes, v: seq<Bytes>, w: seq<Bytes>, x: seq<Bytes>, y: seq<Bytes>, z: seq<Bytes>)
    ensures b + Terminated(v, '\r') + Terminated(w, '\r') + Terminated(x, '\r') + Terminated(y, '\r') + Terminated(z, '\r')
            == b + Terminated(v + w + x + y + z, '\r')
  {
    hide Terminated;
    TerminatedConcat(v, w, '\r');
    TerminatedConcat(v + w, x, '\r');
    TerminatedConcat(v + w + x, y, '\r');
    TerminatedConcat(v + w + x + y, z, '\r');
    Assoc(b, Terminated(v, '\r'), Terminated(w, '\r'));
    Assoc(b, Terminated(v + w, '\r'), Terminated(x, '\r'));
    Assoc(b, Terminated(v + w + x, '\r'), Terminated(y, '\r'));
    Assoc(b, Terminated(v + w + x + y, '\r'), Terminated(z, '\r'));
  }
}
