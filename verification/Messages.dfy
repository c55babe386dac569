/**
 Netmail and echomail: ParseMessage, Pack, splitKludge, applyINTL, OriginAddr
 and EchoFooter of internal/ftn/message.go, as functions. The loops of the
 program, and the round trips, are in the modules beside this one.
 */
module Messages {
  import opened Text
  import opened Charsets
  import opened Addresses
  import opened Packets
  import opened Nets

  const SOH: char := '\U{01}'
  const SEEN_BY: string := "SEEN-BY:"
  const PATH_LINE: string := "\U{01}PATH:"

  datatype Kludge = Kludge(name: Bytes, value: Bytes)

  /** A message with its text decoded. The control-line fields stay raw bytes,
      and the date stays in its packed form. */
  datatype Message = Message(
    area: Bytes, from: string, to: string, subject: string, date: Bytes,
    orig: Addr, dest: Addr, attr: int,
    msgID: Bytes, reply: Bytes, charset: Charset, tzutc: Bytes,
    body: string, seenBy: seq<Net2D>, path: seq<Net2D>, kludges: seq<Kludge>)

  // ---- control lines ---------------------------------------------------------

  /** "NAME: value" or "NAME value", without the ^A. */
  function SplitKludge(s: Bytes): Kludge {
    var colon, space := Index(s, ':'), Index(s, ' ');
    if colon < |s| && ' ' !in s[..colon] then Kludge(ToUpper(s[..colon]), TrimSpace(s[colon + 1..]))
    else Kludge(ToUpper(s[..space]), TrimSpace(if space < |s| then s[space + 1..] else ""))
  }

  datatype Kind = Intl | Fmpt | Topt | MsgId | Reply | Chrs | TzUtc | Path | Other

  function KindOf(name: Bytes): Kind {
    if name == "INTL" then Intl
    else if name == "FMPT" then Fmpt
    else if name == "TOPT" then Topt
    else if name == "MSGID" then MsgId
    else if name == "REPLY" then Reply
    else if name == "CHRS" || name == "CHARSET" then Chrs
    else if name == "TZUTC" then TzUtc
    else if name == "PATH" then Path
    else Other
  }

  /** An address field of INTL or MSGID: white space was cut away with Fields. */
  function Relocate(a: Addr, field: Bytes): Addr {
    match ParseTrimmed(field)
    case Address(n) => a.(zone := n.zone, net := n.net, node := n.node)
    case NotAddress => a
  }

  function ApplyINTL(m: Message, v: Bytes): Message {
    var f := Fields(v);
    if |f| != 2 then m else m.(dest := Relocate(m.dest, f[0]), orig := Relocate(m.orig, f[1]))
  }

  /** What ParseMessage has gathered after some lines. */
  datatype Scan = Scan(m: Message, fmpt: int, topt: int, body: seq<Bytes>)

  function Control(st: Scan, k: Kludge): Scan {
    var m := st.m;
    match KindOf(k.name)
    case Intl => st.(m := ApplyINTL(m, k.value))
    case Fmpt => st.(fmpt := Atoi(k.value).value)
    case Topt => st.(topt := Atoi(k.value).value)
    case MsgId => st.(m := m.(msgID := k.value))
    case Reply => st.(m := m.(reply := k.value))
    case Chrs => (match ParseCHRS(k.value)
                  case Known(cs) => st.(m := m.(charset := cs))
                  case Unknown => st)
    case TzUtc => st.(m := m.(tzutc := k.value))
    case Path => st.(m := m.(path := m.path + ReadNets(k.value)))
    case Other => st.(m := m.(kludges := m.kludges + [k]))
  }

  function Step(st: Scan, l: Bytes): Scan {
    if l != "" && l[0] == SOH then Control(st, SplitKludge(l[1..]))
    else if SEEN_BY <= l then st.(m := st.m.(seenBy := st.m.seenBy + ReadNets(l[8..])))
    else st.(body := st.body + [l])
  }

  function ScanLines(st: Scan, lines: seq<Bytes>): Scan
    decreases |lines|
  {
    if lines == [] then st else ScanLines(Step(st, lines[0]), lines[1..])
  }

  // ---- ParseMessage -----------------------------------------------------------

  predicate Blank(l: Bytes) { TrimSpace(l) == "" }

  function DropBlank(body: seq<Bytes>): seq<Bytes> {
    if body != [] && Blank(body[|body| - 1]) then DropBlank(body[..|body| - 1]) else body
  }

  /** The address in the last origin line of an echomail body. */
  function OriginAddr(body: string): AddrResult {
    match LastIndex(body, " * Origin:")
    case None => NotAddress
    case At(i) =>
      var rest := body[i..];
      var line := rest[..Index(rest, '\n')];
      var open, close := AfterLast(line, '('), AfterLast(line, ')');
      if open == 0 || close <= open then NotAddress
      else ParseAddr(line[open..close - 1])
  }

  function MsgIdAddr(msgid: Bytes): AddrResult {
    var f := Fields(msgid);
    if |f| != 2 then NotAddress else ParseTrimmed(f[0])
  }

  /** The message before any line of its text is read. */
  function Header(pm: PackedMessage, pktFrom: Addr, pktTo: Addr, cs: Charset): Message {
    Message("", "", "", "", pm.dateTime,
            Addr(pktFrom.zone, pm.origNet, pm.origNode, 0, ""), Addr(pktTo.zone, pm.destNet, pm.destNode, 0, ""),
            pm.attr, "", "", cs, "", "", [], [], [])
  }

  function TextLines(text: Bytes): (lines: seq<Bytes>)
    ensures |lines| >= 1
  {
    Split(Remove(text, '\n'), '\r')
  }

  predicate HasArea(lines: seq<Bytes>)
    requires |lines| >= 1
  {
    "AREA:" <= lines[0]
  }

  function Opening(h: Message, lines: seq<Bytes>): Scan
    requires |lines| >= 1
  {
    Scan(if HasArea(lines) then h.(area := ToUpper(TrimSpace(lines[0][5..]))) else h, 0, 0, [])
  }

  function Rest(lines: seq<Bytes>): seq<Bytes>
    requires |lines| >= 1
  {
    if HasArea(lines) then lines[1..] else lines
  }

  /** An echomail message's origin: its origin line, else its MSGID, else the
      packet header. */
  function EchoOrigin(m: Message): Addr {
    match OriginAddr(m.body)
    case Address(a) => a
    case NotAddress =>
      match MsgIdAddr(m.msgID)
      case Address(a) => a
      case NotAddress => m.orig
  }

  function Finish(st: Scan, pm: PackedMessage): Message {
    var m := st.m.(
      orig := st.m.orig.(point := st.fmpt),
      dest := st.m.dest.(point := st.topt),
      from := TrimText(Decode(pm.from, st.m.charset)),
      to := TrimText(Decode(pm.to, st.m.charset)),
      subject := TrimText(Decode(pm.subject, st.m.charset)),
      body := Decode(Join(DropBlank(st.body), '\n'), st.m.charset));
    if m.area != "" then m.(orig := EchoOrigin(m)) else m
  }

  function ParseMessage(pm: PackedMessage, pktFrom: Addr, pktTo: Addr, defaultCS: Charset): Message {
    var lines := TextLines(pm.text);
    Finish(ScanLines(Opening(Header(pm, pktFrom, pktTo, defaultCS), lines), Rest(lines)), pm)
  }

  // ---- Pack --------------------------------------------------------------------

  /** A control line with a value, or nothing. */
  function KludgeLine(name: Bytes, value: Bytes): seq<Bytes> {
    if value == "" then [] else [[SOH] + name + ": " + value]
  }

  function KludgeLines(ks: seq<Kludge>): seq<Bytes> {
    if ks == [] then [] else KludgeLine(ks[0].name, ks[0].value) + KludgeLines(ks[1..])
  }

  function IntlLine(m: Message): Bytes {
    [SOH] + "INTL " + String(Boss(m.dest)) + " " + String(Boss(m.orig))
  }

  function PointLine(name: Bytes, point: int): seq<Bytes> {
    if point == 0 then [] else [[SOH] + name + " " + Itoa(point)]
  }

  /** The lines before the control lines every message has. */
  function AddressLines(m: Message): seq<Bytes> {
    if m.area != "" then ["AREA:" + m.area]
    else [IntlLine(m)] + PointLine("FMPT", m.orig.point) + PointLine("TOPT", m.dest.point)
  }

  function ControlLines(m: Message): seq<Bytes> {
    KludgeLine("MSGID", m.msgID) + KludgeLine("REPLY", m.reply) + KludgeLine("CHRS", CHRS(m.charset))
    + KludgeLine("TZUTC", m.tzutc) + KludgeLines(m.kludges)
  }

  function BodyBytes(m: Message): Bytes {
    Encode(Replace(Replace(JoinCrLf(m.body), '\r', '\n'), '\n', '\r'), m.charset)
  }

  function NetLines(m: Message): seq<Bytes> {
    if m.area == "" then [] else FormatNets(SEEN_BY, SortNets(m.seenBy)) + FormatNets(PATH_LINE, m.path)
  }

  function PackText(m: Message): Bytes {
    Terminated(AddressLines(m) + ControlLines(m), '\r') + BodyBytes(m) + "\r" + Terminated(NetLines(m), '\r')
  }

  function Pack(m: Message): PackedMessage {
    PackedMessage(m.orig.node, m.orig.net, m.dest.node, m.dest.net, m.attr, 0, m.date,
                  Encode(m.to, m.charset), Encode(m.from, m.charset), Encode(m.subject, m.charset), PackText(m))
  }

  /** The tear line and origin line of an echomail message; the origin text is
      shortened, never the address. */
  function EchoFooter(tear: string, origin: string, a: Addr): string {
    "--- " + tear + "\n" + OriginLine(origin, a)
  }

  function OriginLine(origin: string, a: Addr): string {
    var addr := " (" + String(a) + ")";
    var room := MAX_LINE - 11 - |addr|;
    var text := if |origin| > room then origin[..if room > 0 then room else 0] else origin;
    " * Origin: " + text + addr
  }
}
