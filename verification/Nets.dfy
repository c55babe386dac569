/**
 The "net/node node net/node" shorthand of SEEN-BY and PATH lines (FTS-0004):
 appendNets, FormatNets and SortNets of internal/ftn/message.go.
 */
module Nets {
  import opened Text
  import opened Addresses

  const MAX_LINE := 79

  predicate IsEntry(n: Net2D) { 0 <= n.net <= MAX_INT && 0 <= n.node <= MAX_INT }

  predicate AreEntries(nets: seq<Net2D>) { forall i :: 0 <= i < |nets| ==> IsEntry(nets[i]) }

  /** The entries a reader keeps: it drops every entry of net 0. */
  function Named(nets: seq<Net2D>): seq<Net2D> {
    if nets == [] then [] else (if nets[0].net == 0 then [] else [nets[0]]) + Named(nets[1..])
  }

  lemma {:induction false} NamedAll(nets: seq<Net2D>)
    ensures |Named(nets)| <= |nets|
    ensures Named(nets) == nets <==> forall i :: 0 <= i < |nets| ==> nets[i].net != 0
  {
    if nets != [] {
      NamedAll(nets[1..]);
      assert nets == [nets[0]] + nets[1..];
    }
  }

  // ---- reading --------------------------------------------------------------

  /** The net the shorthand carries along, and the entries read so far. */
  datatype NetState = NetState(net: int, out: seq<Net2D>)

  function NetStep(st: NetState, f: string): NetState {
    var slash := Index(f, '/');
    var named := slash < |f|;
    var v := Atoi(f[..slash]);
    if named && !v.ok then st
    else
      var net := if named then v.value else st.net;
      var node := Atoi(if named then f[slash + 1..] else f);
      if !node.ok || net == 0 then NetState(net, st.out) else NetState(net, st.out + [Net2D(net, node.value)])
  }

  function ReadTokens(tokens: seq<string>): NetState {
    if tokens == [] then NetState(0, [])
    else NetStep(ReadTokens(tokens[..|tokens| - 1]), tokens[|tokens| - 1])
  }

  /** The entries on one line; appendNets appends them to its first argument. */
  function ReadNets(s: Bytes): seq<Net2D> { ReadTokens(Fields(s)).out }

  function ReadLines(lines: seq<string>, skip: nat): seq<Net2D>
    requires forall i :: 0 <= i < |lines| ==> skip <= |lines[i]|
  {
    if lines == [] then [] else ReadNets(lines[0][skip..]) + ReadLines(lines[1..], skip)
  }

  // ---- writing --------------------------------------------------------------

  function Pair(n: Net2D): string { Itoa(n.net) + "/" + Itoa(n.node) }

  function Token(n: Net2D, net: int): string { if n.net != net then Pair(n) else Itoa(n.node) }

  /** The words of each line. words, width and net describe the line being
      filled; a new line restates the net. */
  function Layout(start: nat, nets: seq<Net2D>, words: seq<string>, width: nat, net: int): seq<seq<string>>
    decreases |nets|
  {
    if nets == [] then (if words == [] then [] else [words])
    else
      var n := nets[0];
      var tok := Token(n, net);
      if width + 1 + |tok| > MAX_LINE && words != [] then
        [words] + Layout(start, nets[1..], [Pair(n)], start + 1 + |Pair(n)|, n.net)
      else
        Layout(start, nets[1..], words + [tok], width + 1 + |tok|, n.net)
  }

  function Lines(prefix: string, layout: seq<seq<string>>): (lines: seq<string>)
    ensures |lines| == |layout|
    ensures forall i :: 0 <= i < |lines| ==> lines[i] == prefix + Spaced(layout[i])
  {
    seq(|layout|, i requires 0 <= i < |layout| => prefix + Spaced(layout[i]))
  }

  function FormatNets(prefix: string, nets: seq<Net2D>): seq<string> {
    Lines(prefix, Layout(|prefix|, nets, [], |prefix|, -1))
  }

  // ---- tokens ----------------------------------------------------------------

  lemma NamedOne(out: seq<Net2D>, n: Net2D)
    ensures out + Named([n]) == if n.net == 0 then out else out + [n]
  {
    assert [n][1..] == [];
  }

  lemma PairRead(st: NetState, n: Net2D)
    requires IsEntry(n)
    ensures NetStep(st, Pair(n)) == NetState(n.net, st.out + Named([n]))
  {
    NamedOne(st.out, n);
    var a, b := Itoa(n.net), Itoa(n.node);
    IndexAfter(a, '/', b);
    assert Pair(n)[..|a|] == a && Pair(n)[|a| + 1..] == b;
    AtoiOfItoa(n.net);
    AtoiOfItoa(n.node);
  }

  lemma NodeRead(st: NetState, n: Net2D)
    requires IsEntry(n) && st.net == n.net
    ensures NetStep(st, Itoa(n.node)) == NetState(n.net, st.out + Named([n]))
  {
    NamedOne(st.out, n);
    IndexNone(Itoa(n.node), '/');
    AtoiOfItoa(n.node);
  }

  lemma TokenRead(st: NetState, n: Net2D, net: int)
    requires IsEntry(n) && (n.net == net ==> st.net == net)
    ensures NetStep(st, Token(n, net)) == NetState(n.net, st.out + Named([n]))
  {
    if n.net != net {
      PairRead(st, n);
    } else {
      NodeRead(st, n);
    }
  }

  lemma TokenShape(n: Net2D, net: int)
    requires IsEntry(n)
    ensures Graphic(Token(n, net)) && 1 <= |Token(n, net)| <= 39
    ensures Graphic(Pair(n)) && 3 <= |Pair(n)| <= 39
  {
    IntLength(n.net);
    IntLength(n.node);
  }

  // ---- layout ----------------------------------------------------------------

  /** What the line being filled amounts to when read. */
  ghost predicate Filling(words: seq<string>, net: int, got: seq<Net2D>) {
    && ReadTokens(words).out == got
    && (words == [] ==> net == -1)
    && (words != [] ==> ReadTokens(words).net == net)
  }

  function ReadLayout(layout: seq<seq<string>>): seq<Net2D> {
    if layout == [] then [] else ReadTokens(layout[0]).out + ReadLayout(layout[1..])
  }

  lemma NoTokens()
    ensures ReadTokens([]) == NetState(0, [])
  {
  }

  lemma PushToken(words: seq<string>, t: string)
    ensures ReadTokens(words + [t]) == NetStep(ReadTokens(words), t)
  {
    assert (words + [t])[..|words|] == words;
  }

  lemma NamedFirst(nets: seq<Net2D>)
    requires nets != []
    ensures Named(nets) == Named([nets[0]]) + Named(nets[1..])
  {
  }

  lemma {:induction false} LayoutRead(start: nat, nets: seq<Net2D>, words: seq<string>, width: nat, net: int, got: seq<Net2D>)
    requires AreEntries(nets) && Filling(words, net, got)
    ensures ReadLayout(Layout(start, nets, words, width, net)) == got + Named(nets)
    decreases |nets|
  {
    hide NetStep, Token, Pair;
    if nets == [] {
      if words != [] {
        assert [words][1..] == [];
      }
      assert got + Named(nets) == got;
    } else {
      var n, rest := nets[0], nets[1..];
      NamedFirst(nets);
      assert IsEntry(n) && AreEntries(rest);
      var tok := Token(n, net);
      if width + 1 + |tok| > MAX_LINE && words != [] {
        PairRead(NetState(0, []), n);
        PushToken([], Pair(n));
        assert [] + [Pair(n)] == [Pair(n)];
        LayoutRead(start, rest, [Pair(n)], start + 1 + |Pair(n)|, n.net, Named([n]));
        var more := Layout(start, rest, [Pair(n)], start + 1 + |Pair(n)|, n.net);
        assert ([words] + more)[1..] == more;
      } else {
        TokenRead(ReadTokens(words), n, net);
        PushToken(words, tok);
        LayoutRead(start, rest, words + [tok], width + 1 + |tok|, n.net, got + Named([n]));
        Assoc(got, Named([n]), Named(rest));
      }
    }
  }

  /** Words of a line: printable, none empty, together within the line. */
  ghost predicate LineWords(start: nat, words: seq<string>) {
    && (forall i :: 0 <= i < |words| ==> words[i] != "" && Graphic(words[i]))
    && start + |Spaced(words)| <= MAX_LINE
  }

  ghost predicate StatesNet(words: seq<string>) {
    words != [] && exists n :: IsEntry(n) && words[0] == Pair(n)
  }

  ghost predicate GoodLayout(start: nat, layout: seq<seq<string>>) {
    forall i :: 0 <= i < |layout| ==> LineWords(start, layout[i]) && StatesNet(layout[i])
  }

  lemma {:induction false} SpacedPush(words: seq<string>, t: string)
    ensures Spaced(words + [t]) == Spaced(words) + " " + t
  {
    if words == [] {
      assert (words + [t])[1..] == [];
      assert Spaced([t]) == " " + t + Spaced([]);
    } else {
      assert (words + [t])[1..] == words[1..] + [t];
      SpacedPush(words[1..], t);
      Assoc(" " + words[0], Spaced(words[1..]), " " + t);
      Assoc(Spaced(words[1..]), " ", t);
      Assoc(Spaced(words), " ", t);
    }
  }

  lemma {:induction false} LayoutLines(start: nat, nets: seq<Net2D>, words: seq<string>, width: nat, net: int)
    requires AreEntries(nets) && start <= 39 && LineWords(start, words) && width == start + |Spaced(words)|
    requires if words == [] then net == -1 else StatesNet(words)
    ensures GoodLayout(start, Layout(start, nets, words, width, net))
    decreases |nets|
  {
    hide NetStep, Token, Pair, ReadTokens;
    if nets != [] {
      var n, rest := nets[0], nets[1..];
      assert IsEntry(n) && AreEntries(rest);
      var tok := Token(n, net);
      TokenShape(n, net);
      if width + 1 + |tok| > MAX_LINE && words != [] {
        NewLine(start, n);
        LayoutLines(start, rest, [Pair(n)], start + 1 + |Pair(n)|, n.net);
        var more := Layout(start, rest, [Pair(n)], start + 1 + |Pair(n)|, n.net);
        assert Layout(start, nets, words, width, net) == [words] + more;
      } else {
        SpacedPush(words, tok);
        if words == [] {
          TokenNamesNet(n);
        } else {
          assert (words + [tok])[0] == words[0];
        }
        LayoutLines(start, rest, words + [tok], width + 1 + |tok|, n.net);
      }
    }
  }

  lemma TokenNamesNet(n: Net2D)
    requires IsEntry(n)
    ensures Token(n, -1) == Pair(n) && StatesNet([] + [Pair(n)])
  {
  }

  lemma NewLine(start: nat, n: Net2D)
    requires IsEntry(n) && start <= 39
    ensures LineWords(start, [Pair(n)]) && StatesNet([Pair(n)])
    ensures start + |Spaced([Pair(n)])| == start + 1 + |Pair(n)|
  {
    TokenShape(n, -1);
    SpacedPush([], Pair(n));
    assert [] + [Pair(n)] == [Pair(n)];
  }

  // ---- main results ------------------------------------------------------------

  lemma {:induction false} LinesRead(prefix: string, layout: seq<seq<string>>)
    requires forall i :: 0 <= i < |layout| ==> LineWords(|prefix|, layout[i])
    ensures ReadLines(Lines(prefix, layout), |prefix|) == ReadLayout(layout)
  {
    hide ReadTokens;
    if layout != [] {
      var lines := Lines(prefix, layout);
      assert lines[0][|prefix|..] == Spaced(layout[0]);
      assert lines[1..] == Lines(prefix, layout[1..]);
      FieldsSpaced(layout[0]);
      LinesRead(prefix, layout[1..]);
    }
  }

  lemma LayoutOfNets(prefix: string, nets: seq<Net2D>)
    requires AreEntries(nets) && |prefix| <= 39
    ensures var layout := Layout(|prefix|, nets, [], |prefix|, -1);
            GoodLayout(|prefix|, layout) && ReadLayout(layout) == Named(nets)
  {
    hide Layout;
    LayoutLines(|prefix|, nets, [], |prefix|, -1);
    LayoutRead(|prefix|, nets, [], |prefix|, -1, []);
    assert [] + Named(nets) == Named(nets);
  }

  /** Reading every line of the shorthand on its own gives back the entries
      whose net is not 0: the whole list exactly when there is no such entry.
      Every line restates its net first and none is over 79 bytes. */
  lemma FormatNetsRoundTrip(prefix: string, nets: seq<Net2D>)
    requires AreEntries(nets) && |prefix| <= 39
    ensures var lines := FormatNets(prefix, nets);
            && (forall i :: 0 <= i < |lines| ==> prefix <= lines[i] && |lines[i]| <= MAX_LINE && NamesNet(prefix, lines[i]))
            && ReadLines(lines, |prefix|) == Named(nets)
            && (ReadLines(lines, |prefix|) == nets <==> forall i :: 0 <= i < |nets| ==> nets[i].net != 0)
  {
    hide Layout;
    NamedAll(nets);
    LayoutOfNets(prefix, nets);
    var layout := Layout(|prefix|, nets, [], |prefix|, -1);
    LinesRead(prefix, layout);
    forall i | 0 <= i < |layout| ensures NamesNet(prefix, prefix + Spaced(layout[i])) {
      FirstWord(prefix, layout[i]);
    }
  }

  /** The line starts with prefix, a space and a full net/node pair. */
  ghost predicate NamesNet(prefix: string, line: string) {
    exists n :: IsEntry(n) && prefix + " " + Pair(n) <= line
  }

  lemma FirstWord(prefix: string, words: seq<string>)
    requires StatesNet(words)
    ensures NamesNet(prefix, prefix + Spaced(words))
  {
    hide Pair;
    var n :| IsEntry(n) && words[0] == Pair(n);
    Assoc(prefix, " ", Pair(n));
    Assoc(prefix, " " + Pair(n), Spaced(words[1..]));
  }

  // ---- SortNets ------------------------------------------------------------------

  predicate Less(a: Net2D, b: Net2D) { a.net < b.net || (a.net == b.net && a.node < b.node) }

  predicate StrictlySorted(s: seq<Net2D>) { forall i, j :: 0 <= i < j < |s| ==> Less(s[i], s[j]) }

  function Insert(n: Net2D, s: seq<Net2D>): seq<Net2D> {
    if s == [] || Less(n, s[0]) then [n] + s
    else if n == s[0] then s
    else [s[0]] + Insert(n, s[1..])
  }

  /** A sorted copy without duplicates. */
  function SortNets(nets: seq<Net2D>): seq<Net2D> {
    if nets == [] then [] else Insert(nets[0], SortNets(nets[1..]))
  }

  lemma {:induction false} InsertSorted(n: Net2D, s: seq<Net2D>)
    requires StrictlySorted(s)
    ensures StrictlySorted(Insert(n, s))
    ensures forall x :: x in Insert(n, s) <==> x == n || x in s
  {
    if s != [] && !Less(n, s[0]) && n != s[0] {
      InsertSorted(n, s[1..]);
      var r := Insert(n, s[1..]);
      assert s == [s[0]] + s[1..];
      forall x | x in r ensures Less(s[0], x) {
        if x != n {
          assert x in s[1..];
        }
      }
      forall i, j | 0 <= i < j < |r| + 1 ensures Less(([s[0]] + r)[i], ([s[0]] + r)[j]) {
        assert r[j - 1] in r;
      }
    }
  }

  /** SortNets keeps exactly the entries it was given, strictly increasing. */
  lemma {:induction false} SortNetsSorts(nets: seq<Net2D>)
    ensures StrictlySorted(SortNets(nets))
    ensures forall x :: x in SortNets(nets) <==> x in nets
    ensures AreEntries(nets) ==> AreEntries(SortNets(nets))
  {
    if nets != [] {
      SortNetsSorts(nets[1..]);
      InsertSorted(nets[0], SortNets(nets[1..]));
      assert nets == [nets[0]] + nets[1..];
      if AreEntries(nets) {
        forall i | 0 <= i < |SortNets(nets)| ensures IsEntry(SortNets(nets)[i]) {
          assert SortNets(nets)[i] in nets;
        }
      }
    }
  }

  /** There is only one such sequence, so the order the library sorts in does
      not matter. */
  lemma {:induction false} SortedUnique(a: seq<Net2D>, b: seq<Net2D>)
    requires StrictlySorted(a) && StrictlySorted(b)
    requires forall x :: x in a <==> x in b
    ensures a == b
  {
    if a == [] {
      assert forall k :: 0 <= k < |b| ==> b[k] in b;
    } else {
      assert a[0] in b && b != [] && b[0] in a;
      assert a[0] == b[0];
      forall x ensures x in a[1..] <==> x in b[1..] {
        TailMember(a, x);
        TailMember(b, x);
      }
      SortedUnique(a[1..], b[1..]);
    }
  }

  lemma TailMember(s: seq<Net2D>, x: Net2D)
    requires s != [] && StrictlySorted(s)
    ensures x in s[1..] <==> x in s && x != s[0]
  {
    assert s == [s[0]] + s[1..];
  }

  // ---- the loops of the program -------------------------------------------------

  method AppendNets(to: seq<Net2D>, s: Bytes) returns (out: seq<Net2D>)
    ensures out == to + ReadNets(s)
  {
    hide ReadTokens, Fields, Atoi, Index;
    out := to;
    var net := 0;
    var fields := Fields(s);
    NoTokens();
    for i := 0 to |fields|
      invariant ReadTokens(fields[..i]).net == net
      invariant out == to + ReadTokens(fields[..i]).out
    {
      var f := fields[i];
      assert fields[..i + 1] == fields[..i] + [f];
      PushToken(fields[..i], f);
      var nodePart := f;
      var slash := Index(f, '/');
      if slash < |f| {
        var v := Atoi(f[..slash]);
        if !v.ok {
          continue;
        }
        net, nodePart := v.value, f[slash + 1..];
      }
      var node := Atoi(nodePart);
      if !node.ok || net == 0 {
        continue;
      }
      out := out + [Net2D(net, node.value)];
    }
    assert fields[..|fields|] == fields;
  }

  method Format(prefix: string, nets: seq<Net2D>) returns (lines: seq<string>)
    ensures lines == FormatNets(prefix, nets)
  {
    hide Token, Pair, Layout, Lines, Spaced;
    lines := [];
    var line, net := prefix, -1;
    ghost var words, done: seq<seq<string>> := [], [];
    NoLines(prefix, nets);
    for i := 0 to |nets|
      invariant line == prefix + Spaced(words)
      invariant lines == Lines(prefix, done)
      invariant done + Layout(|prefix|, nets[i..], words, |line|, net) == Layout(|prefix|, nets, [], |prefix|, -1)
    {
      var n := nets[i];
      LayoutNext(|prefix|, nets, i, words, |line|, net);
      FinishLines(prefix, done, words);
      var tok := Token(n, net);
      if |line| + 1 + |tok| > MAX_LINE && line != prefix {
        Assoc(done, [words], Layout(|prefix|, nets[i + 1..], [Pair(n)], |prefix| + 1 + |Pair(n)|, n.net));
        lines := lines + [line];
        done, words := done + [words], [];
        line := prefix;
        tok := Pair(n);
        EmptyLine(prefix, tok);
      }
      PushWord(prefix, words, tok);
      line := line + (" " + tok);
      words := words + [tok];
      net := n.net;
    }
    FinishLines(prefix, done, words);
    LayoutEnd(|prefix|, nets, words, |line|, net);
    if line != prefix {
      lines := lines + [line];
    }
  }

  lemma NoLines(prefix: string, nets: seq<Net2D>)
    ensures Lines(prefix, []) == [] && prefix + Spaced([]) == prefix && nets[0..] == nets
    ensures [] + Layout(|prefix|, nets, [], |prefix|, -1) == Layout(|prefix|, nets, [], |prefix|, -1)
  {
    hide Layout;
  }

  lemma EmptyLine(prefix: string, tok: string)
    ensures prefix + Spaced([]) == prefix && [] + [tok] == [tok]
  {
  }

  lemma LayoutNext(start: nat, nets: seq<Net2D>, i: nat, words: seq<string>, width: nat, net: int)
    requires i < |nets|
    ensures var n := nets[i]; var tok := Token(n, net);
            Layout(start, nets[i..], words, width, net)
            == if width + 1 + |tok| > MAX_LINE && words != [] then
                 [words] + Layout(start, nets[i + 1..], [Pair(n)], start + 1 + |Pair(n)|, n.net)
               else Layout(start, nets[i + 1..], words + [tok], width + 1 + |tok|, n.net)
  {
    hide Token, Pair;
    assert nets[i..][1..] == nets[i + 1..];
  }

  lemma LayoutEnd(start: nat, nets: seq<Net2D>, words: seq<string>, width: nat, net: int)
    ensures Layout(start, nets[|nets|..], words, width, net) == if words == [] then [] else [words]
  {
  }

  lemma PushWord(prefix: string, words: seq<string>, tok: string)
    ensures prefix + Spaced(words) + (" " + tok) == prefix + Spaced(words + [tok])
  {
    SpacedPush(words, tok);
    Assoc(prefix, Spaced(words), " " + tok);
    Assoc(Spaced(words), " ", tok);
  }

  lemma FinishLines(prefix: string, done: seq<seq<string>>, words: seq<string>)
    ensures prefix + Spaced(words) == prefix <==> words == []
    ensures Lines(prefix, done) + [prefix + Spaced(words)] == Lines(prefix, done + [words])
    ensures done + [] == done
  {
  }
}
