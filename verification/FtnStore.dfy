/**
 Where tossed mail is kept: ImportEcho of internal/store/echo.go and
 ImportNetmail of internal/store/netmail.go. Tables are sequences in id order. The
 clock columns are not here, and the hash of a message without MSGID is its
 content, which the hash stands for.
 */
module FtnStore {
  import opened Text
  import opened Charsets
  import opened Addresses
  import opened Messages
  import opened Letters

  const MAX_TAG := 40
  const MAX_ECHO_NAME := 36
  const MAX_ADDR := 40
  const MAX_NETMAIL_NAME := 36
  const MAX_TEXT := 0x1_0000
  const MAX_ECHO := 2000
  const MAX_NETMAIL := 1000

  /** A MSGID, or what a synthetic one is the hash of. */
  datatype Key = Given(msgID: Bytes)
               | Synthetic(area: Bytes, from: string, orig: string, to: string, subject: string, date: Bytes, body: string)

  datatype Area = Area(id: nat, tag: Bytes)

  datatype EchoRow = EchoRow(id: nat, area: nat, key: Key, from: string, fromAddr: string, to: string, subject: string,
                             body: string, posted: Bytes)

  datatype NetRow = NetRow(id: nat, key: Key, replyTo: Bytes, from: string, fromAddr: string, to: string, toAddr: string,
                           subject: string, body: string, posted: Bytes)

  datatype Db = Db(areas: seq<Area>, echo: seq<EchoRow>, netmail: seq<NetRow>)

  datatype TossResult = Stored | Duplicate | Skipped

  datatype Import = Import(db: Db, result: TossResult)

  /** truncateUTF8: the longest start of s that takes at most n bytes. */
  function FitBytes(s: string, n: nat): (r: string)
    ensures r <= s
  {
    if s == "" || |Utf8(s[0])| > n then "" else [s[0]] + FitBytes(s[1..], n - |Utf8(s[0])|)
  }

  function KeyOf(m: Message): Key {
    var id := TrimSpace(m.msgID);
    if id == "" then Synthetic(m.area, m.from, String(m.orig), m.to, m.subject, m.date, m.body) else Given(id)
  }

  function OrElse(s: string, def: string): string { if s == "" then def else s }

  // ---- echomail --------------------------------------------------------------------

  predicate HasEcho(rows: seq<EchoRow>, key: Key) { exists r :: r in rows && r.key == key }

  function AreaId(areas: seq<Area>, tag: Bytes): nat {
    if areas == [] then 0 else if areas[0].tag == tag then areas[0].id else AreaId(areas[1..], tag)
  }

  predicate HasArea(areas: seq<Area>, tag: Bytes) { exists a :: a in areas && a.tag == tag }

  /** ensureEchoArea: an area is made when its first message comes. */
  function WithArea(areas: seq<Area>, tag: Bytes): seq<Area> {
    if HasArea(areas, tag) then areas
    else areas + [Area(if areas == [] then 1 else areas[|areas| - 1].id + 1, tag)]
  }

  function InArea(rows: seq<EchoRow>, area: nat): seq<EchoRow> {
    if rows == [] then [] else (if rows[0].area == area then [rows[0]] else []) + InArea(rows[1..], area)
  }

  /** Delete the n oldest rows of an area. */
  function DropOldest(rows: seq<EchoRow>, area: nat, n: nat): seq<EchoRow> {
    if rows == [] || n == 0 then rows
    else if rows[0].area == area then DropOldest(rows[1..], area, n - 1)
    else [rows[0]] + DropOldest(rows[1..], area, n)
  }

  /** pruneEchoArea. */
  function PruneArea(rows: seq<EchoRow>, area: nat): seq<EchoRow> {
    var n := |InArea(rows, area)|;
    if n <= MAX_ECHO then rows else DropOldest(rows, area, n - MAX_ECHO)
  }

  function EchoTag(m: Message): Bytes { ToUpper(TrimSpace(m.area)) }

  predicate IsTag(tag: Bytes) { tag != "" && |tag| <= MAX_TAG }

  function NewEcho(db: Db, m: Message): EchoRow {
    EchoRow(if db.echo == [] then 1 else db.echo[|db.echo| - 1].id + 1,
            AreaId(WithArea(db.areas, EchoTag(m)), EchoTag(m)), KeyOf(m),
            OrElse(Clean(m.from, MAX_ECHO_NAME), "Unknown"), Clean(String(m.orig), MAX_ADDR),
            OrElse(Clean(m.to, MAX_ECHO_NAME), "All"), OrElse(Clean(m.subject, MAX_SUBJECT_LEN), "(no subject)"),
            FitBytes(m.body, MAX_TEXT), m.date)
  }

  function ImportEcho(db: Db, m: Message): Import {
    if m.area == "" || !IsTag(EchoTag(m)) then Import(db, Skipped)
    else if HasEcho(db.echo, KeyOf(m)) then Import(db, Duplicate)
    else
      var row := NewEcho(db, m);
      Import(db.(areas := WithArea(db.areas, EchoTag(m)), echo := PruneArea(db.echo + [row], row.area)), Stored)
  }

  // ---- netmail ----------------------------------------------------------------------

  predicate HasNetmail(rows: seq<NetRow>, key: Key) { exists r :: r in rows && r.key == key }

  function NewNetmail(db: Db, m: Message): NetRow {
    NetRow(if db.netmail == [] then 1 else db.netmail[|db.netmail| - 1].id + 1, KeyOf(m), TrimSpace(m.reply),
           OrElse(Clean(m.from, MAX_NETMAIL_NAME), "Unknown"), Clean(String(m.orig), MAX_ADDR),
           OrElse(Clean(m.to, MAX_NETMAIL_NAME), "Sysop"), Clean(String(m.dest), MAX_ADDR),
           OrElse(Clean(m.subject, MAX_SUBJECT_LEN), "(no subject)"), FitBytes(m.body, MAX_TEXT), m.date)
  }

  function Newest(rows: seq<NetRow>, n: nat): seq<NetRow> { if |rows| <= n then rows else rows[|rows| - n..] }

  function ImportNetmail(db: Db, m: Message): Import {
    if m.area != "" then Import(db, Skipped)
    else if HasNetmail(db.netmail, KeyOf(m)) then Import(db, Duplicate)
    else Import(db.(netmail := Newest(db.netmail + [NewNetmail(db, m)], MAX_NETMAIL)), Stored)
  }

  // ---- invariants ---------------------------------------------------------------------

  ghost predicate EchoOrdered(rows: seq<EchoRow>) {
    forall i, j :: 0 <= i < j < |rows| ==> rows[i].id < rows[j].id && rows[i].key != rows[j].key
  }

  ghost predicate NetOrdered(rows: seq<NetRow>) {
    forall i, j :: 0 <= i < j < |rows| ==> rows[i].id < rows[j].id && rows[i].key != rows[j].key
  }

  ghost predicate AreasOrdered(areas: seq<Area>) {
    && (forall i :: 0 <= i < |areas| ==> areas[i].id >= 1)
    && forall i, j :: 0 <= i < j < |areas| ==> areas[i].id < areas[j].id && areas[i].tag != areas[j].tag
  }

  predicate HasAreaId(areas: seq<Area>, id: nat) { exists a :: a in areas && a.id == id }

  ghost predicate RowsHaveAreas(db: Db) { forall r :: r in db.echo ==> HasAreaId(db.areas, r.area) }

  /** MSGIDs are unique, ids increase, every row is in an area, and no area or box is
      over its limit. */
  ghost predicate DbInv(db: Db) {
    && EchoOrdered(db.echo) && NetOrdered(db.netmail) && AreasOrdered(db.areas) && |db.netmail| <= MAX_NETMAIL
    && RowsHaveAreas(db)
    && forall area: nat :: |InArea(db.echo, area)| <= MAX_ECHO
  }

  lemma {:induction false} InAreaConcat(a: seq<EchoRow>, b: seq<EchoRow>, area: nat)
    ensures InArea(a + b, area) == InArea(a, area) + InArea(b, area)
  {
    if a == [] {
      assert a + b == b;
    } else {
      assert (a + b)[1..] == a[1..] + b;
      InAreaConcat(a[1..], b, area);
      Assoc(if a[0].area == area then [a[0]] else [], InArea(a[1..], area), InArea(b, area));
    }
  }

  lemma InAreaOne(r: EchoRow, area: nat)
    ensures InArea([r], area) == if r.area == area then [r] else []
  {
    assert [r][1..] == [];
  }

  lemma InAreaFirst(rows: seq<EchoRow>, area: nat)
    requires rows != []
    ensures InArea(rows, area) == if rows[0].area == area then [rows[0]] + InArea(rows[1..], area) else InArea(rows[1..], area)
  {
    assert [] + InArea(rows[1..], area) == InArea(rows[1..], area);
  }

  /** Pruning takes the oldest of one area and nothing of another. */
  lemma {:induction false} DropOldestTakes(rows: seq<EchoRow>, area: nat, n: nat, other: nat)
    requires n <= |InArea(rows, area)|
    ensures InArea(DropOldest(rows, area, n), other)
            == if other == area then InArea(rows, area)[n..] else InArea(rows, other)
  {
    hide InArea;
    if rows == [] {
      EmptyArea(area);
    } else if n > 0 {
      InAreaFirst(rows, area);
      InAreaFirst(rows, other);
      if rows[0].area == area {
        DropOldestTakes(rows[1..], area, n - 1, other);
      } else {
        DropOldestTakes(rows[1..], area, n, other);
        var rest := DropOldest(rows[1..], area, n);
        InAreaFirst([rows[0]] + rest, other);
        assert ([rows[0]] + rest)[1..] == rest;
      }
    }
  }

  lemma EmptyArea(area: nat)
    ensures InArea([], area) == []
  {
  }

  lemma {:induction false} DropOldestOrdered(rows: seq<EchoRow>, area: nat, n: nat)
    requires EchoOrdered(rows)
    ensures EchoOrdered(DropOldest(rows, area, n))
    ensures forall r :: r in DropOldest(rows, area, n) ==> r in rows
  {
    if rows != [] && n > 0 {
      if rows[0].area == area {
        DropOldestOrdered(rows[1..], area, n - 1);
      } else {
        DropOldestOrdered(rows[1..], area, n);
        var rest := DropOldest(rows[1..], area, n);
        assert rows == [rows[0]] + rows[1..];
        forall r | r in rest ensures rows[0].id < r.id && rows[0].key != r.key {
          assert r in rows[1..];
        }
        Prepended(rows[0], rest, (a: EchoRow, b: EchoRow) => a.id < b.id && a.key != b.key);
      }
    }
  }

  lemma AreaPushed(areas: seq<Area>, tag: Bytes)
    requires AreasOrdered(areas)
    ensures AreasOrdered(WithArea(areas, tag)) && HasArea(WithArea(areas, tag), tag)
  {
    var w := WithArea(areas, tag);
    if !HasArea(areas, tag) {
      assert w[|w| - 1].tag == tag;
      assert forall i :: 0 <= i < |areas| ==> areas[i] in areas;
    }
  }

  /** An import files the message under its area and keeps exactly the newest 2000
      messages there, whatever else is stored; no other area changes. */
  lemma EchoKeepsNewest(db: Db, m: Message, other: nat)
    requires ImportEcho(db, m).result == Stored && forall area: nat :: |InArea(db.echo, area)| <= MAX_ECHO
    ensures var row := NewEcho(db, m);
            var all := InArea(db.echo, row.area) + [row];
            InArea(ImportEcho(db, m).db.echo, other)
            == if other != row.area then InArea(db.echo, other)
               else if |all| <= MAX_ECHO then all else all[|all| - MAX_ECHO..]
  {
    hide IsTag, KeyOf, NewEcho, WithArea, InArea, DropOldest, HasEcho;
    var row := NewEcho(db, m);
    InAreaConcat(db.echo, [row], row.area);
    InAreaConcat(db.echo, [row], other);
    InAreaOne(row, row.area);
    InAreaOne(row, other);
    assert InArea(db.echo, other) + [] == InArea(db.echo, other);
    var n := |InArea(db.echo + [row], row.area)|;
    if n > MAX_ECHO {
      DropOldestTakes(db.echo + [row], row.area, n - MAX_ECHO, other);
    }
  }

  lemma EchoPushed(db: Db, m: Message)
    requires EchoOrdered(db.echo) && !HasEcho(db.echo, KeyOf(m))
    ensures EchoOrdered(db.echo + [NewEcho(db, m)])
  {
    hide KeyOf, NewEcho;
    var rows := db.echo;
    NewEchoIs(db, m);
    assert forall i :: 0 <= i < |rows| ==> rows[i] in rows;
  }

  lemma NewEchoIs(db: Db, m: Message)
    ensures var row := NewEcho(db, m);
            row.key == KeyOf(m) && row.id == if db.echo == [] then 1 else db.echo[|db.echo| - 1].id + 1
  {
    hide KeyOf, WithArea, AreaId, OrElse, FitBytes, String;
  }

  lemma EchoInv(db: Db, m: Message)
    requires DbInv(db)
    ensures DbInv(ImportEcho(db, m).db)
  {
    hide IsTag, KeyOf, NewEcho, WithArea, InArea, DropOldest, HasEcho, EchoOrdered, NetOrdered, AreasOrdered, RowsHaveAreas;
    var t := ImportEcho(db, m);
    if t.result == Stored {
      EchoHasAreas(db, m);
      var row := NewEcho(db, m);
      EchoPushed(db, m);
      var n := |InArea(db.echo + [row], row.area)|;
      DropOldestOrdered(db.echo + [row], row.area, if n <= MAX_ECHO then 0 else n - MAX_ECHO);
      AreaPushed(db.areas, EchoTag(m));
      forall area: nat ensures |InArea(t.db.echo, area)| <= MAX_ECHO {
        EchoKeepsNewest(db, m, area);
        assert |InArea(db.echo, area)| <= MAX_ECHO;
      }
    }
  }

  lemma EchoHasAreas(db: Db, m: Message)
    requires EchoOrdered(db.echo) && RowsHaveAreas(db) && ImportEcho(db, m).result == Stored
    ensures RowsHaveAreas(ImportEcho(db, m).db)
  {
    hide IsTag, KeyOf, NewEcho, InArea, DropOldest, HasEcho, EchoOrdered, WithArea, AreaId;
    var row, t := NewEcho(db, m), ImportEcho(db, m);
    EchoPushed(db, m);
    var all := db.echo + [row];
    var n := |InArea(all, row.area)|;
    DropOldestOrdered(all, row.area, if n <= MAX_ECHO then 0 else n - MAX_ECHO);
    NewHasArea(db, m);
    forall r | r in t.db.echo ensures HasAreaId(t.db.areas, r.area) {
      assert r in all;
      if r in db.echo {
        AreaStays(db.areas, EchoTag(m), r.area);
      }
    }
  }

  lemma AreaStays(areas: seq<Area>, tag: Bytes, id: nat)
    requires HasAreaId(areas, id)
    ensures HasAreaId(WithArea(areas, tag), id)
  {
    var a :| a in areas && a.id == id;
    assert a in WithArea(areas, tag);
  }

  lemma NewHasArea(db: Db, m: Message)
    ensures HasAreaId(WithArea(db.areas, EchoTag(m)), NewEcho(db, m).area)
    ensures NewEcho(db, m).area == AreaId(WithArea(db.areas, EchoTag(m)), EchoTag(m))
  {
    hide KeyOf, OrElse, FitBytes, String;
    var w := WithArea(db.areas, EchoTag(m));
    if !HasArea(db.areas, EchoTag(m)) {
      assert w[|w| - 1].tag == EchoTag(m);
    }
    AreaIdIn(w, EchoTag(m));
  }

  lemma {:induction false} AreaIdIn(areas: seq<Area>, tag: Bytes)
    requires HasArea(areas, tag)
    ensures Area(AreaId(areas, tag), tag) in areas
  {
    if areas[0].tag != tag {
      var a :| a in areas && a.tag == tag;
      assert a in areas[1..];
      AreaIdIn(areas[1..], tag);
    }
  }

  lemma NetPushed(db: Db, m: Message)
    requires NetOrdered(db.netmail) && !HasNetmail(db.netmail, KeyOf(m))
    ensures NetOrdered(db.netmail + [NewNetmail(db, m)])
  {
    hide KeyOf, Clean, String, FitBytes, OrElse, TrimSpace;
    var rows := db.netmail;
    assert forall i :: 0 <= i < |rows| ==> rows[i] in rows;
  }

  lemma NewestOrdered(rows: seq<NetRow>, n: nat)
    requires NetOrdered(rows)
    ensures NetOrdered(Newest(rows, n)) && |Newest(rows, n)| <= n
  {
  }

  lemma NetmailInv(db: Db, m: Message)
    requires DbInv(db)
    ensures DbInv(ImportNetmail(db, m).db)
  {
    hide KeyOf, InArea, EchoOrdered, AreasOrdered, NetOrdered, NewNetmail, HasNetmail, Newest;
    if ImportNetmail(db, m).result == Stored {
      NetPushed(db, m);
      NewestOrdered(db.netmail + [NewNetmail(db, m)], MAX_NETMAIL);
    }
  }

  // ---- importing twice ------------------------------------------------------------------

  /** The row an import adds is not pruned, nor is any other for it. */
  predicate EchoFits(db: Db, m: Message) {
    ImportEcho(db, m).result == Stored ==> |InArea(db.echo, NewEcho(db, m).area)| < MAX_ECHO
  }

  predicate NetmailFits(db: Db, m: Message) {
    ImportNetmail(db, m).result == Stored ==> |db.netmail| < MAX_NETMAIL
  }

  lemma EchoAdds(db: Db, m: Message)
    requires EchoFits(db, m)
    ensures var t := ImportEcho(db, m);
            t.db.netmail == db.netmail && t.db.echo == if t.result == Stored then db.echo + [NewEcho(db, m)] else db.echo
  {
    hide IsTag, KeyOf, NewEcho, WithArea, InArea, DropOldest, HasEcho;
    var row := NewEcho(db, m);
    InAreaConcat(db.echo, [row], row.area);
    InAreaOne(row, row.area);
  }

  lemma NetmailAdds(db: Db, m: Message)
    requires NetmailFits(db, m)
    ensures var t := ImportNetmail(db, m);
            t.db.echo == db.echo && t.db.areas == db.areas
            && t.db.netmail == if t.result == Stored then db.netmail + [NewNetmail(db, m)] else db.netmail
  {
    hide KeyOf, NewNetmail, HasNetmail;
  }
}
