/** FidoNet addresses: internal/ftn/addr.go. */
module Addresses {
  import opened Text

  /** zone:net/node.point with an optional domain. */
  datatype Addr = Addr(zone: int, net: int, node: int, point: int, domain: string)

  /** The "net/node" pair SEEN-BY and PATH lines are made of. */
  datatype Net2D = Net2D(net: int, node: int)

  datatype AddrResult = NotAddress | Address(addr: Addr)

  predicate IsWord(n: int) { 0 <= n <= 65535 }

  /** What the packet header and the control lines can carry. */
  predicate Fits16(a: Addr) {
    1 <= a.zone <= 65535 && IsWord(a.net) && IsWord(a.node) && IsWord(a.point)
  }

  function Same(a: Addr, b: Addr): bool {
    a.zone == b.zone && a.net == b.net && a.node == b.node && a.point == b.point
  }

  /** Addr.String: the 4D form, without a zero point and without the domain. */
  function String(a: Addr): string {
    Itoa(a.zone) + ":" + Itoa(a.net) + "/" + Itoa(a.node) + (if a.point != 0 then "." + Itoa(a.point) else "")
  }

  function Boss(a: Addr): Addr { a.(point := 0) }

  /** One part of an address: a number of at most 16 bits. */
  function Word(part: string): Parsed {
    var n := Atoi(part);
    if n.ok && IsWord(n.value) then n else Parsed(0, false)
  }

  /** An address cut at its punctuation; a missing point reads "0". */
  datatype Pieces = NoPieces | Pieces(zone: string, net: string, node: string, point: string)

  function Cut(d: string): Pieces {
    var colon, slash := Index(d, ':'), Index(d, '/');
    if colon == 0 || colon == |d| || slash == |d| || slash < colon + 2 then NoPieces
    else
      var nodePart := d[slash + 1..];
      var dot := Index(nodePart, '.');
      Pieces(d[..colon], d[colon + 1..slash], nodePart[..dot],
             if dot < |nodePart| then nodePart[dot + 1..] else "0")
  }

  function Number(p: Pieces, domain: string): (r: AddrResult)
    requires p.Pieces?
    ensures r.Address? ==> Fits16(r.addr)
  {
    var zone, net, node, point := Word(p.zone), Word(p.net), Word(p.node), Word(p.point);
    if zone.ok && net.ok && node.ok && point.ok && zone.value != 0 then
      Address(Addr(zone.value, net.value, node.value, point.value, domain))
    else NotAddress
  }

  /** ParseAddr after its TrimSpace. */
  function ParseTrimmed(s: string): (r: AddrResult)
    ensures r.Address? ==> Fits16(r.addr)
  {
    var at := Index(s, '@');
    var domain := if at < |s| then ToLower(s[at + 1..]) else "";
    var p := Cut(s[..at]);
    if p.NoPieces? then NotAddress else Number(p, domain)
  }

  function ParseAddr(s: string): AddrResult { ParseTrimmed(TrimText(s)) }

  predicate IsAddrChar(c: char) { IsDigit(c) || c == ':' || c == '/' || c == '.' || c == '-' }

  ghost predicate AddrChars(s: string) { forall i :: 0 <= i < |s| ==> IsAddrChar(s[i]) }

  lemma NumberChars(n: int)
    ensures AddrChars(Itoa(n)) && Itoa(n) != ""
  {
    hide Decimal;
  }

  lemma JoinedChars(a: string, c: char, b: string)
    requires AddrChars(a) && IsAddrChar(c) && AddrChars(b)
    ensures AddrChars(a + [c] + b)
  {
    hide IsAddrChar;
  }

  lemma GraphicString(a: Addr)
    ensures Graphic(String(a)) && String(a) != ""
    ensures AddrChars(String(a))
  {
    hide Itoa, AddrChars, IsAddrChar, Graphic;
    var zone, net, node := Itoa(a.zone), Itoa(a.net), Itoa(a.node);
    NumberChars(a.zone);
    NumberChars(a.net);
    NumberChars(a.node);
    NumberChars(a.point);
    Separators();
    JoinedChars(zone, ':', net);
    JoinedChars(zone + [':'] + net, '/', node);
    var s := zone + [':'] + net + ['/'] + node;
    JoinedChars(s, '.', Itoa(a.point));
    if a.point == 0 {
      assert String(a) == s + "";
      assert s + "" == s;
    } else {
      Assoc(s, ".", Itoa(a.point));
    }
    AddrIsGraphic(String(a));
  }

  lemma Separators()
    ensures IsAddrChar(':') && IsAddrChar('/') && IsAddrChar('.')
  {
  }

  lemma AddrIsGraphic(s: string)
    requires AddrChars(s)
    ensures Graphic(s)
  {
  }

  lemma WordOfItoa(n: int)
    requires IsWord(n)
    ensures Word(Itoa(n)) == Parsed(n, true)
    ensures AllDigits(Itoa(n)) && Itoa(n) != "" && |Itoa(n)| <= 5
  {
    AtoiOfItoa(n);
    WordLength(n);
  }

  lemma CutOfTail(zone: string, net: string, tail: string)
    requires zone != "" && net != "" && AllDigits(zone) && AllDigits(net)
    ensures var dot := Index(tail, '.');
            Cut(zone + ":" + net + "/" + tail)
            == Pieces(zone, net, tail[..dot], if dot < |tail| then tail[dot + 1..] else "0")
  {
    var s := zone + ":" + net + "/" + tail;
    var colon, slash := |zone|, |zone| + 1 + |net|;
    assert Index(s, ':') == colon by {
      assert s == zone + [':'] + (net + "/" + tail);
      IndexAfter(zone, ':', net + "/" + tail);
    }
    assert Index(s, '/') == slash by {
      IndexAfter(zone + ":" + net, '/', tail);
    }
    assert s[..colon] == zone;
    assert s[colon + 1..slash] == net;
    assert s[slash + 1..] == tail;
  }

  lemma CutOfPieces(zone: string, net: string, node: string, point: string)
    requires zone != "" && net != "" && AllDigits(zone) && AllDigits(net) && AllDigits(node)
    ensures Cut(zone + ":" + net + "/" + node) == Pieces(zone, net, node, "0")
    ensures Cut(zone + ":" + net + "/" + (node + "." + point)) == Pieces(zone, net, node, point)
  {
    CutOfTail(zone, net, node);
    assert Index(node, '.') == |node| && node[..|node|] == node;
    CutOfTail(zone, net, node + "." + point);
    var t := node + "." + point;
    assert Index(t, '.') == |node| by {
      IndexAfter(node, '.', point);
    }
    assert t[..|node|] == node && t[|node| + 1..] == point;
  }

  lemma ParseOfCut(s: string, p: Pieces)
    requires '@' !in s && Cut(s) == p && p.Pieces?
    ensures ParseTrimmed(s) == Number(p, "")
  {
    IndexNone(s, '@');
    assert s[..|s|] == s;
  }

  lemma NumberOfWords(p: Pieces, a: Addr)
    requires p.Pieces? && Fits16(a) && a.domain == ""
    requires Word(p.zone) == Parsed(a.zone, true) && Word(p.net) == Parsed(a.net, true)
    requires Word(p.node) == Parsed(a.node, true) && Word(p.point) == Parsed(a.point, true)
    ensures Number(p, "") == Address(a)
  {
  }

  /** The text of an address: its first three parts, then perhaps a point. */
  lemma StringShape(a: Addr)
    ensures var stem := Itoa(a.zone) + ":" + Itoa(a.net) + "/";
            String(a) == stem + if a.point != 0 then Itoa(a.node) + "." + Itoa(a.point) else Itoa(a.node)
  {
  }

  lemma CutOfString(a: Addr)
    requires Fits16(a)
    ensures Cut(String(a)) == Pieces(Itoa(a.zone), Itoa(a.net), Itoa(a.node), Itoa(a.point))
  {
    assert Itoa(0) == "0";
    StringShape(a);
    CutOfPieces(Itoa(a.zone), Itoa(a.net), Itoa(a.node), Itoa(a.point));
  }

  /** An address that fits its 16-bit fields survives printing. */
  lemma ParseOfString(a: Addr)
    requires Fits16(a)
    ensures ParseTrimmed(String(a)) == Address(a.(domain := ""))
    ensures ParseAddr(String(a)) == Address(a.(domain := ""))
  {
    StringPlain(a);
    CutOfString(a);
    WordsOfString(a);
    var p := Pieces(Itoa(a.zone), Itoa(a.net), Itoa(a.node), Itoa(a.point));
    ParseOfCut(String(a), p);
    NumberOfWords(p, a.(domain := ""));
  }

  lemma StringPlain(a: Addr)
    ensures '@' !in String(a) && TrimText(String(a)) == String(a)
  {
    GraphicString(a);
  }

  lemma WordsOfString(a: Addr)
    requires Fits16(a)
    ensures Word(Itoa(a.zone)) == Parsed(a.zone, true) && Word(Itoa(a.net)) == Parsed(a.net, true)
    ensures Word(Itoa(a.node)) == Parsed(a.node, true) && Word(Itoa(a.point)) == Parsed(a.point, true)
  {
    WordOfItoa(a.zone);
    WordOfItoa(a.net);
    WordOfItoa(a.node);
    WordOfItoa(a.point);
  }

  lemma StringLength(a: Addr)
    requires Fits16(a)
    ensures |String(a)| <= 23 + if a.point != 0 then 0 else -6
  {
    WordOfItoa(a.zone);
    WordOfItoa(a.net);
    WordOfItoa(a.node);
    WordOfItoa(a.point);
  }

  /** A domain after the address is kept, in small letters. */
  lemma ParseWithDomain(a: Addr, domain: string)
    requires Fits16(a) && domain != "" && Graphic(domain)
    ensures ParseAddr(String(a) + "@" + domain) == Address(a.(domain := ToLower(domain)))
  {
    hide String, Number, Cut, Graphic, ToLower;
    var s := String(a) + "@" + domain;
    StringPlain(a);
    GraphicString(a);
    CutOfString(a);
    WordsOfString(a);
    IndexAfter(String(a), '@', domain);
    assert s[..|String(a)|] == String(a) && s[|String(a)| + 1..] == domain;
    EndsAreGraphic(String(a), domain);
    NumberWithDomain(a, domain);
  }

  lemma EndsAreGraphic(a: string, b: string)
    requires Graphic(b) && b != ""
    requires TrimText(a) == a && a != ""
    ensures TrimText(a + "@" + b) == a + "@" + b
  {
    var s := a + "@" + b;
    assert s[|s| - 1] == b[|b| - 1] && s[0] == a[0];
    TrimmedStart(a);
  }

  lemma {:induction false} TrimShorter(s: string)
    ensures |TrimText(s)| <= |s|
    decreases |s|
  {
    if s != "" && IsSpaceRune(s[0]) {
      TrimShorter(s[1..]);
    } else if s != "" && IsSpaceRune(s[|s| - 1]) {
      TrimShorter(s[..|s| - 1]);
    }
  }

  lemma TrimmedStart(a: string)
    requires TrimText(a) == a && a != ""
    ensures !IsSpaceRune(a[0])
  {
    if IsSpaceRune(a[0]) {
      TrimShorter(a[1..]);
    }
  }

  lemma NumberWithDomain(a: Addr, domain: string)
    requires Fits16(a)
    requires Word(Itoa(a.zone)) == Parsed(a.zone, true) && Word(Itoa(a.net)) == Parsed(a.net, true)
    requires Word(Itoa(a.node)) == Parsed(a.node, true) && Word(Itoa(a.point)) == Parsed(a.point, true)
    ensures Number(Pieces(Itoa(a.zone), Itoa(a.net), Itoa(a.node), Itoa(a.point)), ToLower(domain))
            == Address(a.(domain := ToLower(domain)))
  {
  }

  /** A text is an address only if it is four numbers of at most 16 bits at their places,
      with a zone that is not 0; a point that is not written is 0. */
  lemma OnlyAddresses(s: string) returns (zone: string, net: string, node: string, point: string)
    requires '@' !in s && ParseTrimmed(s).Address?
    ensures var a := ParseTrimmed(s).addr;
            && (s == zone + ":" + net + "/" + node + "." + point || (s == zone + ":" + net + "/" + node && point == "0"))
            && Atoi(zone) == Parsed(a.zone, true) && Atoi(net) == Parsed(a.net, true) && Atoi(node) == Parsed(a.node, true)
            && Atoi(point) == Parsed(a.point, true)
            && 1 <= a.zone <= 65535 && 0 <= a.net <= 65535 && 0 <= a.node <= 65535 && 0 <= a.point <= 65535
  {
    hide Atoi;
    IndexNone(s, '@');
    assert s[..|s|] == s;
    var p := Cut(s);
    zone, net, node, point := p.zone, p.net, p.node, p.point;
    CutSpells(s);
  }

  lemma CutSpells(s: string)
    requires Cut(s).Pieces?
    ensures var p := Cut(s);
            s == p.zone + ":" + p.net + "/" + p.node + "." + p.point || (s == p.zone + ":" + p.net + "/" + p.node && p.point == "0")
  {
    var colon, slash := Index(s, ':'), Index(s, '/');
    var stem, nodePart := s[..colon] + ":" + s[colon + 1..slash] + "/", s[slash + 1..];
    StemSpells(s, colon, slash);
    DotSpells(stem, nodePart);
  }

  lemma StemSpells(s: string, colon: nat, slash: nat)
    requires colon < slash < |s| && s[colon] == ':' && s[slash] == '/'
    ensures s == s[..colon] + ":" + s[colon + 1..slash] + "/" + s[slash + 1..]
  {
  }

  lemma DotSpells(stem: string, t: string)
    ensures var dot := Index(t, '.');
            if dot < |t| then stem + t == stem + t[..dot] + "." + t[dot + 1..] else t[..dot] == t
  {
    var dot := Index(t, '.');
    if dot < |t| {
      assert t == t[..dot] + ("." + t[dot + 1..]);
      Assoc(stem, t[..dot], "." + t[dot + 1..]);
      Assoc(stem + t[..dot], ".", t[dot + 1..]);
    }
  }

  /** ParseAddr as the program writes it: cut the text, then fill the four
      numbers in a loop. */
  method Parse(text: string) returns (r: AddrResult)
    ensures r == ParseAddr(text)
  {
    var s := TrimText(text);
    var domain := "";
    var at := Index(s, '@');
    if at < |s| {
      domain := ToLower(s[at + 1..]);
    }
    var p := Cut(s[..at]);
    if p.NoPieces? {
      return NotAddress;
    }
    r := Numbers(p, domain);
  }

  method Numbers(p: Pieces, domain: string) returns (r: AddrResult)
    requires p.Pieces?
    ensures r == Number(p, domain)
  {
    var parts := [p.zone, p.net, p.node, p.point];
    var nums := [];
    for i := 0 to 4
      invariant |nums| == i
      invariant forall k :: 0 <= k < i ==> Word(parts[k]) == Parsed(nums[k], true)
    {
      var n := Atoi(parts[i]);
      if !n.ok || n.value < 0 || n.value > 65535 {
        assert !Word(parts[i]).ok;
        return NotAddress;
      }
      nums := nums + [n.value];
    }
    if nums[0] == 0 {
      return NotAddress;
    }
    return Address(Addr(nums[0], nums[1], nums[2], nums[3], domain));
  }
}
