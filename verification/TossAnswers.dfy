/**
 Which messages a toss stores and what its counters tell (internal/ftntoss/toss.go), read
 off the messages, the node's addresses and the tables.
 */
module TossAnswers {
  import opened Text
  import opened Addresses
  import opened Messages
  import opened FtnStore
  import opened FtnContents
  import opened Tossing
  import opened TossLoop

  /** One of the node's addresses in all four parts, whatever the domains. */
  ghost predicate ForUs(c: Config, a: Addr) {
    exists x :: x in c.own && x.zone == a.zone && x.net == a.net && x.node == a.node && x.point == a.point
  }

  lemma OwnIs(c: Config, a: Addr)
    ensures IsOwn(c, a) <==> ForUs(c, a)
  {
    if ForUs(c, a) {
      var x :| x in c.own && x.zone == a.zone && x.net == a.net && x.node == a.node && x.point == a.point;
      assert Same(x, a);
    }
  }

  /** Netmail is stored if and only if it is for this node and none like it is there;
      echomail if and only if it came in over the protected inbound, has a usable tag and
      none like it is there. Neither touches the other's table. */
  lemma HandledAs(c: Config, db: Db, m: Message)
    ensures var t := Handle(c, db, m);
            var usable := c.secure && 1 <= |TrimSpace(m.area)| <= 40;
            && (m.area == "" ==> t.db.echo == db.echo && t.db.areas == db.areas
                                 && (t.result == Stored <==> ForUs(c, m.dest) && forall r :: r in db.netmail ==> r.key != KeyOf(m))
                                 && (t.result == Skipped <==> !ForUs(c, m.dest)))
            && (m.area != "" ==> t.db.netmail == db.netmail
                                 && (t.result == Stored <==> usable && forall r :: r in db.echo ==> r.key != KeyOf(m))
                                 && (t.result == Skipped <==> !usable))
            && (t.result != Stored ==> t.db == db)
  {
    hide KeyOf, TrimSpace, ImportEcho, ImportNetmail, IsOwn, ForUs;
    OwnIs(c, m.dest);
    EchoAnswer(db, m);
    NetmailAnswer(db, m);
  }

  /** The places in a file of the messages with this answer. */
  ghost function Places(c: Config, db: Db, ms: seq<Message>, r: TossResult): set<nat> {
    set i: nat | i < |ms| && Handle(c, ImportAll(c, db, ms[..i]), ms[i]).result == r
  }

  ghost function NetmailPlaces(c: Config, db: Db, ms: seq<Message>): set<nat> {
    set i: nat | i < |ms| && Handle(c, ImportAll(c, db, ms[..i]), ms[i]).result == Stored && ms[i].area == ""
  }

  lemma PlacesGrow(c: Config, db: Db, ms: seq<Message>, r: TossResult)
    requires ms != []
    ensures var k := |ms| - 1;
            |Places(c, db, ms, r)|
            == |Places(c, db, ms[..k], r)| + if Handle(c, ImportAll(c, db, ms[..k]), ms[k]).result == r then 1 else 0
  {
    hide Handle, ImportAll;
    var k := |ms| - 1;
    assert forall i: nat :: i < k ==> ms[..k][..i] == ms[..i];
    var more: set<nat> := if Handle(c, ImportAll(c, db, ms[..k]), ms[k]).result == r then {k} else {};
    assert Places(c, db, ms, r) == Places(c, db, ms[..k], r) + more;
    assert Places(c, db, ms[..k], r) !! more;
  }

  lemma NetmailPlacesGrow(c: Config, db: Db, ms: seq<Message>)
    requires ms != []
    ensures var k := |ms| - 1;
            |NetmailPlaces(c, db, ms)|
            == |NetmailPlaces(c, db, ms[..k])|
               + if Handle(c, ImportAll(c, db, ms[..k]), ms[k]).result == Stored && ms[k].area == "" then 1 else 0
  {
    hide Handle, ImportAll;
    var k := |ms| - 1;
    assert forall i: nat :: i < k ==> ms[..k][..i] == ms[..i];
    var more: set<nat> := if Handle(c, ImportAll(c, db, ms[..k]), ms[k]).result == Stored && ms[k].area == "" then {k} else {};
    assert NetmailPlaces(c, db, ms) == NetmailPlaces(c, db, ms[..k]) + more;
    assert NetmailPlaces(c, db, ms[..k]) !! more;
  }

  /** Each counter is the number of the messages with that answer; netmail counts those
      stored that are netmail. */
  lemma {:induction false} CountersTell(c: Config, st: Stats, db: Db, ms: seq<Message>)
    ensures var t := CountAll(c, st, db, ms);
            && t.stored == st.stored + |Places(c, db, ms, Stored)|
            && t.duplicate == st.duplicate + |Places(c, db, ms, Duplicate)|
            && t.skipped == st.skipped + |Places(c, db, ms, Skipped)|
            && t.netmail == st.netmail + |NetmailPlaces(c, db, ms)|
    decreases |ms|
  {
    hide Handle, ImportAll, Places, NetmailPlaces, IsOwn;
    if ms == [] {
      NoPlaces(c, db);
    } else {
      var k := |ms| - 1;
      CountersTell(c, st, db, ms[..k]);
      PlacesGrow(c, db, ms, Stored);
      PlacesGrow(c, db, ms, Duplicate);
      PlacesGrow(c, db, ms, Skipped);
      NetmailPlacesGrow(c, db, ms);
      if Handle(c, ImportAll(c, db, ms[..k]), ms[k]).result == Stored && ms[k].area == "" {
        StoredIsOwn(c, ImportAll(c, db, ms[..k]), ms[k]);
      }
    }
  }

  lemma StoredIsOwn(c: Config, db: Db, m: Message)
    requires Handle(c, db, m).result == Stored && m.area == ""
    ensures IsOwn(c, m.dest)
  {
    hide ImportNetmail, ImportEcho, IsOwn;
  }

  lemma NoPlaces(c: Config, db: Db)
    ensures NetmailPlaces(c, db, []) == {} && forall r :: Places(c, db, [], r) == {}
  {
  }

  // ---- whole files ---------------------------------------------------------------------------

  /** A file fails if and only if it has parts and none of them can be read. */
  lemma FailsExactly(f: File)
    ensures Fails(f) <==> f.parts != [] && forall i :: 0 <= i < |f.parts| ==> f.parts[i].Unreadable?
  {
    if f.parts != [] && forall i :: 0 <= i < |f.parts| ==> f.parts[i].Unreadable? {
      assert f.parts[0] in f.parts;
    }
  }

  /** The messages of a file are those of its readable parts, in order. */
  lemma {:induction false} PartsInOrder(a: seq<Part>, b: seq<Part>, ms: seq<Message>)
    ensures MessagesOf(a + [Readable(ms)] + b) == MessagesOf(a) + ms + MessagesOf(b)
    ensures MessagesOf(a + [Unreadable] + b) == MessagesOf(a) + MessagesOf(b)
    decreases |a|
  {
    var s, t := a + [Readable(ms)] + b, a + [Unreadable] + b;
    if a == [] {
      assert s[1..] == b && t[1..] == b;
      assert [] + ms == ms;
    } else {
      assert s[1..] == a[1..] + [Readable(ms)] + b && t[1..] == a[1..] + [Unreadable] + b;
      PartsInOrder(a[1..], b, ms);
      var first := if a[0].Readable? then a[0].msgs else [];
      Assoc(first, MessagesOf(a[1..]), ms);
      Assoc(first, MessagesOf(a[1..]) + ms, MessagesOf(b));
      Assoc(first, MessagesOf(a[1..]), MessagesOf(b));
    }
  }

  /** A file whose content was tossed before is put with the tossed ones and stores nothing;
      one that fails is set aside, unmarked; any other is imported, marked and put away. */
  lemma TossedAs(c: Config, z: Spool, e: Entry)
    ensures var t, seen, fails := TossOne(c, z, e), e.file in z.ledger,
              e.file.parts != [] && forall i :: 0 <= i < |e.file.parts| ==> e.file.parts[i].Unreadable?;
            && (seen ==> t == z.(done := z.done + [e]))
            && (!seen && fails ==> t == z.(bad := z.bad + [e]))
            && (!seen && !fails ==> t == Spool(ImportAll(c, z.db, MessagesOf(e.file.parts)), z.ledger + {e.file}, z.done + [e], z.bad))
  {
    hide ImportAll, Fails;
    FailsExactly(e.file);
  }
}
