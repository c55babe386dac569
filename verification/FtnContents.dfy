/**
 What is in a stored message, and when a message is stored: ImportEcho of
 internal/store/echo.go and ImportNetmail of internal/store/netmail.go, read off the
 tables after the import.
 */
module FtnContents {
  import opened Text
  import opened Addresses
  import opened Messages
  import opened Letters
  import opened CleanText
  import opened FtnStore

  // ---- the answers ---------------------------------------------------------------------

  /** Two messages count as the same if and only if they have the same MSGID, or neither
      has one and they agree in everything else that is hashed. */
  lemma SameKey(m: Message, n: Message)
    ensures var a, b := TrimSpace(m.msgID), TrimSpace(n.msgID);
            KeyOf(m) == KeyOf(n)
            <==> a == b && (a == "" ==> m.area == n.area && m.from == n.from && String(m.orig) == String(n.orig)
                                        && m.to == n.to && m.subject == n.subject && m.date == n.date && m.body == n.body)
  {
    hide TrimSpace, String;
  }

  /** An echo message is stored if and only if its area has a usable tag and no stored
      echo message counts as the same. */
  lemma EchoAnswer(db: Db, m: Message)
    ensures var t := ImportEcho(db, m);
            var usable := m.area != "" && 1 <= |TrimSpace(m.area)| <= 40;
            && (t.result == Stored <==> usable && forall r :: r in db.echo ==> r.key != KeyOf(m))
            && (t.result == Duplicate <==> usable && exists r :: r in db.echo && r.key == KeyOf(m))
            && (t.result == Skipped <==> !usable)
            && (t.result != Stored ==> t.db == db) && t.db.netmail == db.netmail
  {
    hide KeyOf, TrimSpace, NewEcho, PruneArea;
    var tag := TrimSpace(m.area);
    assert |EchoTag(m)| == |tag|;
  }

  /** Netmail is stored if and only if it is netmail and no stored netmail counts as the
      same. */
  lemma NetmailAnswer(db: Db, m: Message)
    ensures var t := ImportNetmail(db, m);
            && (t.result == Stored <==> m.area == "" && forall r :: r in db.netmail ==> r.key != KeyOf(m))
            && (t.result == Duplicate <==> m.area == "" && exists r :: r in db.netmail && r.key == KeyOf(m))
            && (t.result == Skipped <==> m.area != "")
            && (t.result != Stored ==> t.db == db) && t.db.echo == db.echo && t.db.areas == db.areas
  {
    hide KeyOf, NewNetmail, Newest;
  }

  // ---- the newest row --------------------------------------------------------------------

  lemma {:induction false} LastStays(rows: seq<EchoRow>, row: EchoRow, area: nat, n: nat)
    requires n <= |InArea(rows, area)|
    ensures var left := DropOldest(rows + [row], area, n);
            left != [] && left[|left| - 1] == row
    decreases |rows|
  {
    hide InArea;
    if rows == [] {
      EmptyArea(area);
      assert rows + [row] == [row];
    } else if n > 0 {
      var all := rows + [row];
      assert all[1..] == rows[1..] + [row];
      InAreaFirst(rows, area);
      LastStays(rows[1..], row, area, if rows[0].area == area then n - 1 else n);
    }
  }

  lemma EchoIsLast(db: Db, m: Message)
    requires ImportEcho(db, m).result == Stored
    ensures var t := ImportEcho(db, m).db;
            t.echo != [] && t.echo[|t.echo| - 1] == NewEcho(db, m) && t.areas == WithArea(db.areas, EchoTag(m))
  {
    hide IsTag, KeyOf, NewEcho, WithArea, InArea, DropOldest, HasEcho;
    var row := NewEcho(db, m);
    InAreaConcat(db.echo, [row], row.area);
    InAreaOne(row, row.area);
    var n := |InArea(db.echo + [row], row.area)|;
    if n > MAX_ECHO {
      LastStays(db.echo, row, row.area, n - MAX_ECHO);
    }
  }

  /** A name as it is shown: the cleaned one, or the one for nobody. */
  function Shown36(name: string, nobody: string): string { if Clean(name, 36) == "" then nobody else Clean(name, 36) }

  function ShownSubject(subject: string): string {
    if Clean(subject, 60) == "" then "(no subject)" else Clean(subject, 60)
  }

  /** The newest echo row after an import holds the message: each field its own, under
      its area's tag in capitals, and of the text the longest start of 65536 bytes. */
  lemma EchoContents(db: Db, m: Message)
    requires ImportEcho(db, m).result == Stored
    ensures var t := ImportEcho(db, m).db;
            t.echo != [] &&
            var r := t.echo[|t.echo| - 1];
            && Area(r.area, ToUpper(TrimSpace(m.area))) in t.areas && r.key == KeyOf(m)
            && r.from == Shown36(m.from, "Unknown") && r.to == Shown36(m.to, "All") && r.subject == ShownSubject(m.subject)
            && r.fromAddr == Clean(String(m.orig), 40) && r.posted == m.date && LongestStart(r.body, m.body, 65536)
  {
    EchoIsLast(db, m);
    var row := NewEcho(db, m);
    assert row.from == Shown36(m.from, "Unknown") && row.to == Shown36(m.to, "All") && row.subject == ShownSubject(m.subject)
           && row.fromAddr == Clean(String(m.orig), 40) && row.posted == m.date && row.body == FitBytes(m.body, 65536) by {
      hide KeyOf, WithArea, AreaId, String, Clean, FitBytes;
    }
    hide NewEcho, ImportEcho, KeyOf, Shown36, ShownSubject, String, WithArea, AreaId, LongestStart, EchoTag;
    NewEchoIs(db, m);
    NewHasArea(db, m);
    TagOf(m);
    AreaIsThere(db.areas, EchoTag(m));
    FitBytesLongest(m.body, 65536);
  }

  lemma TagOf(m: Message)
    ensures EchoTag(m) == ToUpper(TrimSpace(m.area))
  {
  }

  lemma AreaIsThere(areas: seq<FtnStore.Area>, tag: Bytes)
    ensures Area(AreaId(WithArea(areas, tag), tag), tag) in WithArea(areas, tag)
  {
    hide AreaId;
    var w := WithArea(areas, tag);
    if !FtnStore.HasArea(areas, tag) {
      assert w[|w| - 1].tag == tag;
    }
    AreaIdIn(w, tag);
  }

  lemma NewNetmailIs(db: Db, m: Message)
    ensures var r := NewNetmail(db, m);
            && r.key == KeyOf(m) && r.replyTo == TrimSpace(m.reply)
            && r.from == Shown36(m.from, "Unknown") && r.to == Shown36(m.to, "Sysop") && r.subject == ShownSubject(m.subject)
            && r.fromAddr == Clean(String(m.orig), 40) && r.toAddr == Clean(String(m.dest), 40)
            && r.posted == m.date && r.body == FitBytes(m.body, 65536)
  {
    hide KeyOf, String, Clean, FitBytes, TrimSpace;
  }

  /** The netmail box after an import is the newest 1000 of what there was and the new
      row, which holds the message: each field its own, both addresses, the text as for
      echomail. */
  lemma NetmailContents(db: Db, m: Message)
    requires ImportNetmail(db, m).result == Stored
    ensures var t := ImportNetmail(db, m).db;
            t.netmail != [] &&
            var r := t.netmail[|t.netmail| - 1];
            && t.netmail == (if |db.netmail| < 1000 then db.netmail else db.netmail[|db.netmail| - 999..]) + [r]
            && r.key == KeyOf(m) && r.replyTo == TrimSpace(m.reply)
            && r.from == Shown36(m.from, "Unknown") && r.to == Shown36(m.to, "Sysop") && r.subject == ShownSubject(m.subject)
            && r.fromAddr == Clean(String(m.orig), 40) && r.toAddr == Clean(String(m.dest), 40)
            && r.posted == m.date && LongestStart(r.body, m.body, 65536)
  {
    hide NewNetmail, KeyOf, HasNetmail, Shown36, ShownSubject, String, LongestStart, TrimSpace;
    var row := NewNetmail(db, m);
    var all := db.netmail + [row];
    if |all| > 1000 {
      assert all[|all| - 1000..] == db.netmail[|db.netmail| - 999..] + [row];
    }
    NewNetmailIs(db, m);
    FitBytesLongest(m.body, 65536);
  }

  // ---- plain mail is stored as it came -----------------------------------------------------

  lemma AddressIsPlain(a: Addr)
    requires Fits16(a)
    ensures Clean(String(a), 40) == String(a)
  {
    hide String, Clean;
    GraphicString(a);
    StringLength(a);
    GraphicIsPlain(String(a));
    PlainStays(String(a), 40);
  }

  lemma GraphicIsPlain(s: string)
    requires Graphic(s) && |s| <= 40
    ensures Plain(s, 40)
  {
    forall i | 0 <= i < |s| ensures Shown(s[i]) && !IsSpaceRune(s[i]) {
      assert '!' <= s[i] <= '~';
    }
  }

  /** Mail whose fields are not blank and hold nothing to clean, with an address a packet
      can carry and a text of at most 65536 bytes. */
  ghost predicate IsPlain(m: Message) {
    && m.from != "" && m.to != "" && m.subject != ""
    && Plain(m.from, 36) && Plain(m.to, 36) && Plain(m.subject, 60)
    && Fits16(m.orig) && Fits16(m.dest) && Bytes8(m.body) <= 65536
  }

  lemma PlainFields(m: Message)
    requires IsPlain(m)
    ensures Shown36(m.from, "Unknown") == m.from && ShownSubject(m.subject) == m.subject
    ensures Shown36(m.to, "All") == m.to && Shown36(m.to, "Sysop") == m.to
    ensures Clean(String(m.orig), 40) == String(m.orig) && Clean(String(m.dest), 40) == String(m.dest)
    ensures forall r :: LongestStart(r, m.body, 65536) ==> r == m.body
  {
    hide Plain, String, Clean, Bytes8, Fits16;
    PlainStays(m.from, 36);
    PlainStays(m.to, 36);
    PlainStays(m.subject, 60);
    AddressIsPlain(m.orig);
    AddressIsPlain(m.dest);
    assert m.body[..|m.body|] == m.body;
  }

  lemma PlainEchoIsKept(db: Db, m: Message)
    requires IsPlain(m) && ImportEcho(db, m).result == Stored
    ensures var t := ImportEcho(db, m).db;
            t.echo != [] &&
            var r := t.echo[|t.echo| - 1];
            && r.from == m.from && r.to == m.to && r.subject == m.subject && r.fromAddr == String(m.orig)
            && r.body == m.body && r.posted == m.date
  {
    hide ImportEcho, Shown36, ShownSubject, Clean, String, LongestStart, IsPlain, KeyOf;
    EchoContents(db, m);
    PlainFields(m);
  }

  lemma PlainNetmailIsKept(db: Db, m: Message)
    requires IsPlain(m) && ImportNetmail(db, m).result == Stored
    ensures var t := ImportNetmail(db, m).db;
            t.netmail != [] &&
            var r := t.netmail[|t.netmail| - 1];
            && r.from == m.from && r.to == m.to && r.subject == m.subject
            && r.fromAddr == String(m.orig) && r.toAddr == String(m.dest) && r.body == m.body && r.posted == m.date
  {
    hide ImportNetmail, Shown36, ShownSubject, Clean, String, LongestStart, IsPlain, KeyOf;
    NetmailContents(db, m);
    PlainFields(m);
  }
}
