/** AddVia of internal/ftn/route.go (FTS-4009): routing netmail adds one control
    line and changes nothing else a reader sees. */
module Routing {
  import opened Text
  import opened Charsets
  import opened Addresses
  import opened Packets
  import opened Nets
  import opened Messages
  import opened Scanning

  /** One system a message passes through. */
  datatype Hop = Hop(system: Addr, stamp: string, program: string)

  function ViaValue(h: Hop): Bytes { String(h.system) + " @" + h.stamp + " " + h.program }

  function ViaLine(h: Hop): Bytes { [SOH] + "Via " + ViaValue(h) }

  /** The text AddVia leaves behind. */
  function AddVia(text: Bytes, h: Hop): Bytes {
    var t := TrimNul(text);
    (if t != "" && t[|t| - 1] != '\r' then t + "\r" else t) + ViaLine(h) + "\r"
  }

  predicate IsHop(h: Hop) { OneLine(h.stamp) && OneLine(h.program) }

  /** AddVia as the program writes it. */
  method Route(text: Bytes, h: Hop) returns (out: Bytes)
    ensures out == AddVia(text, h)
  {
    hide ViaLine;
    out := text;
    while out != "" && out[|out| - 1] == NUL
      invariant TrimNul(out) == TrimNul(text)
      decreases |out|
    {
      out := out[..|out| - 1];
    }
    if out != "" && out[|out| - 1] != '\r' {
      out := out + "\r";
    }
    out := out + ViaLine(h) + "\r";
  }

  // ---- the lines of the new text ---------------------------------------------------

  lemma {:induction false} SplitAt(a: string, sep: char, b: string)
    ensures Split(a + [sep] + b, sep) == Split(a, sep) + Split(b, sep)
  {
    var s := a + [sep] + b;
    if a == "" {
      assert s[1..] == b;
    } else {
      assert s[1..] == a[1..] + [sep] + b;
      SplitAt(a[1..], sep, b);
      var x, y := Split(a[1..], sep), Split(b, sep);
      assert (x + y)[0] == x[0] && (x + y)[1..] == x[1..] + y;
      if a[0] == sep {
        Assoc([""], x, y);
      } else {
        Assoc([[a[0]] + x[0]], x[1..], y);
      }
    }
  }

  lemma ViaOneLine(h: Hop)
    requires IsHop(h)
    ensures OneLine(ViaLine(h))
  {
    hide String;
    GraphicString(h.system);
  }

  lemma AppendedLines(t: Bytes, line: Bytes)
    requires OneLine(line)
    ensures TextLines(t + "\r" + line + "\r") == TextLines(t) + [line, ""]
  {
    hide Split, Remove;
    var r := Remove(t, '\n');
    RemoveConcat(t + "\r" + line, "\r", '\n');
    RemoveConcat(t + "\r", line, '\n');
    RemoveConcat(t, "\r", '\n');
    RemoveNone(line, '\n');
    RemoveNone("\r", '\n');
    SplitAt(r + "\r" + line, '\r', "");
    SplitAt(r, '\r', line);
    SplitNone(line, '\r');
    SplitNone("", '\r');
    assert r + "\r" + line + "\r" + "" == r + "\r" + line + "\r";
    assert TextLines(t) + [line] + [""] == TextLines(t) + [line, ""];
  }

  lemma EndedLines(t: Bytes)
    ensures TextLines(t + "\r") == TextLines(t) + [""]
  {
    hide Split, Remove;
    RemoveConcat(t, "\r", '\n');
    RemoveNone("\r", '\n');
    SplitAt(Remove(t, '\n'), '\r', "");
    SplitNone("", '\r');
    assert Remove(t, '\n') + "\r" + "" == Remove(t, '\n') + "\r";
  }

  /** The lines before and after, as a common start: the new ones always end in
      the Via line and an empty one, the old ones perhaps in an empty one. */
  lemma ViaLines(text: Bytes, h: Hop) returns (common: seq<Bytes>)
    requires TrimNul(text) == text && IsHop(h)
    ensures TextLines(AddVia(text, h)) == common + [ViaLine(h), ""]
    ensures TextLines(text) == common || TextLines(text) == common + [""]
    ensures common == [] ==> text == ""
  {
    hide ViaLine, TextLines, TrimNul;
    ViaOneLine(h);
    if text == "" {
      EmptyText(ViaLine(h));
      return [];
    } else if text[|text| - 1] != '\r' {
      AppendedLines(text, ViaLine(h));
      NoEmptyTextLines(text);
      return TextLines(text);
    } else {
      var u := text[..|text| - 1];
      assert u + "\r" == text;
      EndedLines(u);
      AppendedLines(u, ViaLine(h));
      NoEmptyTextLines(u);
      return TextLines(u);
    }
  }

  lemma EmptyText(line: Bytes)
    requires OneLine(line)
    ensures TextLines("") == [] + [""] && TextLines("" + line + "\r") == [] + [line, ""]
  {
    hide Split;
    EndedLines(line);
    RemoveNone(line, '\n');
    SplitNone(line, '\r');
    SplitNone("", '\r');
    assert "" + line + "\r" == line + "\r";
    assert [line] + [""] == [] + [line, ""];
  }

  lemma NoEmptyTextLines(t: Bytes)
    ensures TextLines(t) != []
  {
  }

  // ---- what a reader makes of it ---------------------------------------------------

  lemma ViaName()
    ensures ToUpper("Via") == "VIA" && KindOf("VIA") == Other
    ensures forall k :: 0 <= k < 3 ==> "Via"[k] != ':' && "Via"[k] != ' '
  {
  }

  lemma ViaSplit(h: Hop)
    ensures SplitKludge("Via " + ViaValue(h)) == Kludge("VIA", TrimSpace(ViaValue(h)))
  {
    hide TrimSpace, ToUpper, ViaValue, KindOf;
    ViaName();
    var s := "Via " + ViaValue(h);
    assert s == "Via" + [' '] + ViaValue(h);
    IndexAfter("Via", ' ', ViaValue(h));
    assert s[..3] == "Via" && s[4..] == ViaValue(h);
    var colon := Index(s, ':');
    assert colon > 3;
    assert s[..colon][3] == ' ';
  }

  lemma ViaStep(st: Scan, h: Hop)
    ensures Step(st, ViaLine(h)) == st.(m := st.m.(kludges := st.m.kludges + [Kludge("VIA", TrimSpace(ViaValue(h)))]))
  {
    hide SplitKludge, Step, TrimSpace, ViaValue, KindOf;
    ViaName();
    ControlStep(st, "Via " + ViaValue(h));
    ViaSplit(h);
    Assoc([SOH], "Via ", ViaValue(h));
  }

  /** A VIA line names the system, the time and the program, in that order. */
  lemma ViaReads(h: Hop)
    requires h.stamp != "" && Graphic(h.stamp) && h.program != "" && Graphic(h.program)
    ensures Fields(ViaValue(h)) == [String(h.system), "@" + h.stamp, h.program]
  {
    hide String, FieldsFrom, Spaced;
    GraphicString(h.system);
    var words := [String(h.system), "@" + h.stamp, h.program];
    assert Graphic("@" + h.stamp) by {
      assert forall i :: 0 < i < |"@" + h.stamp| ==> ("@" + h.stamp)[i] == h.stamp[i - 1];
    }
    FieldsSpaced(words);
    SpacedThree(String(h.system), "@" + h.stamp, h.program);
    LeadingSpace(ViaValue(h));
    ViaText(h);
  }

  lemma ViaText(h: Hop)
    ensures ViaValue(h) == String(h.system) + " " + ("@" + h.stamp) + " " + h.program
  {
    hide String;
    assert String(h.system) + " @" == String(h.system) + " " + "@";
    Assoc(String(h.system) + " ", "@", h.stamp);
  }

  lemma SpacedThree(a: Bytes, b: Bytes, c: Bytes)
    ensures Spaced([a, b, c]) == " " + (a + " " + b + " " + c)
  {
    assert [a, b, c][1..] == [b, c];
    SpacedTwo(b, c);
    assert " " + a + (" " + (b + " " + c)) == " " + (a + " " + b + " " + c);
  }

  function WithVia(m: Message, h: Hop): Message {
    m.(kludges := m.kludges + [Kludge("VIA", TrimSpace(ViaValue(h)))])
  }

  lemma EmptyStep(st: Scan)
    ensures Step(st, "") == st.(body := st.body + [""])
  {
  }

  /** Scanning the new lines instead of the old: one kludge more, and at most one
      blank line, which is dropped. */
  lemma ViaScan(st: Scan, common: seq<Bytes>, h: Hop, was: seq<Bytes>)
    requires was == common || was == common + [""]
    ensures var a, b := ScanLines(st, was), ScanLines(st, common + [ViaLine(h), ""]);
            b.m == WithVia(a.m, h) && b.fmpt == a.fmpt && b.topt == a.topt && DropBlank(b.body) == DropBlank(a.body)
  {
    hide Step, ScanLines, ViaLine, TrimSpace, ViaValue;
    var c := ScanLines(st, common);
    ScanConcat(st, common, [ViaLine(h), ""]);
    ScanConcat(c, [ViaLine(h)], [""]);
    assert [ViaLine(h), ""] == [ViaLine(h)] + [""];
    ScanOne(c, ViaLine(h));
    ViaStep(c, h);
    ScanOne(Step(c, ViaLine(h)), "");
    EmptyStep(Step(c, ViaLine(h)));
    BlankEnd(c.body);
    if was != common {
      ScanConcat(st, common, [""]);
      ScanOne(c, "");
      EmptyStep(c);
    }
  }

  lemma FinishVia(a: Scan, b: Scan, pm: PackedMessage, h: Hop)
    requires b.m == WithVia(a.m, h) && b.fmpt == a.fmpt && b.topt == a.topt && DropBlank(b.body) == DropBlank(a.body)
    ensures Finish(b, pm) == WithVia(Finish(a, pm), h)
  {
    hide DropBlank, Decode, TrimText, ViaValue, OriginAddr, MsgIdAddr, TrimSpace, Join;
  }

  /** The first line is the same, so an echo area is found, or not, as before. */
  lemma SameOpening(hd: Message, common: seq<Bytes>, line: Bytes, was: seq<Bytes>)
    requires was == common || was == common + [""]
    requires common == [] ==> was == [""]
    requires line != "" && line[0] == SOH
    ensures |was| >= 1
    ensures var all := common + [line, ""];
            && Opening(hd, all) == Opening(hd, was)
            && exists c :: Rest(all) == c + [line, ""] && (Rest(was) == c || Rest(was) == c + [""])
  {
    hide TrimSpace, ToUpper;
    var all := common + [line, ""];
    if common == [] {
      assert all[0] == line;
      assert Rest(all) == [] + [line, ""] && Rest(was) == [] + [""];
    } else {
      assert all[0] == common[0] == was[0];
      var c := if HasArea(all) then common[1..] else common;
      assert Rest(all) == c + [line, ""];
      assert Rest(was) == c || Rest(was) == c + [""];
    }
  }

  /** Routing keeps the message: for every text that does not end in NUL, and
      whatever charset, area or control lines it has, a reader sees exactly the
      message from before and one more VIA line, last. */
  lemma AddViaKeeps(pm: PackedMessage, h: Hop, pktFrom: Addr, pktTo: Addr, cs: Charset)
    requires TrimNul(pm.text) == pm.text && IsHop(h)
    ensures ParseMessage(pm.(text := AddVia(pm.text, h)), pktFrom, pktTo, cs)
            == WithVia(ParseMessage(pm, pktFrom, pktTo, cs), h)
  {
    hide AddVia, TextLines, TrimNul, Finish, ScanLines, ViaLine, WithVia, IsHop, Opening, Rest;
    var common := ViaLines(pm.text, h);
    var was := TextLines(pm.text);
    var hd := Header(pm, pktFrom, pktTo, cs);
    ViaStart(h);
    EmptyTextLines(pm.text);
    SameOpening(hd, common, ViaLine(h), was);
    var all := common + [ViaLine(h), ""];
    var c :| Rest(all) == c + [ViaLine(h), ""] && (Rest(was) == c || Rest(was) == c + [""]);
    var st := Opening(hd, was);
    ViaScan(st, c, h, Rest(was));
    FinishVia(ScanLines(st, Rest(was)), ScanLines(st, Rest(all)), pm, h);
    FinishText(ScanLines(st, Rest(all)), pm, AddVia(pm.text, h));
  }

  lemma ViaStart(h: Hop)
    ensures ViaLine(h) != "" && ViaLine(h)[0] == SOH
  {
  }

  lemma EmptyTextLines(t: Bytes)
    ensures t == "" ==> TextLines(t) == [""]
  {
  }

  /** Finish looks at the header fields only; the text has been read. */
  lemma FinishText(st: Scan, pm: PackedMessage, text: Bytes)
    ensures Finish(st, pm.(text := text)) == Finish(st, pm)
  {
    hide DropBlank, Decode, TrimText, OriginAddr, MsgIdAddr, Join;
  }

  // ---- any number of hops -------------------------------------------------------------

  function AddVias(text: Bytes, hops: seq<Hop>): Bytes
    decreases |hops|
  {
    if hops == [] then text else AddVias(AddVia(text, hops[0]), hops[1..])
  }

  function WithVias(m: Message, hops: seq<Hop>): Message {
    m.(kludges := m.kludges + Vias(hops))
  }

  function Vias(hops: seq<Hop>): seq<Kludge> {
    if hops == [] then [] else [Kludge("VIA", TrimSpace(ViaValue(hops[0])))] + Vias(hops[1..])
  }

  lemma ViaEnds(text: Bytes, h: Hop)
    ensures TrimNul(AddVia(text, h)) == AddVia(text, h)
  {
    hide ViaLine;
  }

  /** However many systems route a message, they leave it as it was and are
      recorded in the order it passed them. */
  lemma {:induction false} RouteKeeps(pm: PackedMessage, hops: seq<Hop>, pktFrom: Addr, pktTo: Addr, cs: Charset)
    requires TrimNul(pm.text) == pm.text && forall i :: 0 <= i < |hops| ==> IsHop(hops[i])
    ensures ParseMessage(pm.(text := AddVias(pm.text, hops)), pktFrom, pktTo, cs)
            == WithVias(ParseMessage(pm, pktFrom, pktTo, cs), hops)
    decreases |hops|
  {
    hide AddVia, ParseMessage, TrimNul, ViaValue, TrimSpace, IsHop;
    var m := ParseMessage(pm, pktFrom, pktTo, cs);
    if hops == [] {
      assert m.kludges + Vias(hops) == m.kludges;
    } else {
      AddViaKeeps(pm, hops[0], pktFrom, pktTo, cs);
      ViaEnds(pm.text, hops[0]);
      RouteKeeps(pm.(text := AddVia(pm.text, hops[0])), hops[1..], pktFrom, pktTo, cs);
      Assoc(m.kludges, [Kludge("VIA", TrimSpace(ViaValue(hops[0])))], Vias(hops[1..]));
    }
  }
}
