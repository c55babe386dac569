/** What holds of the mail store in every reachable state, although row and
    account ids are used again. */
module Mailboxes {
  import Text
  import opened Letters
  import opened Mail

  // ---- one operation ------------------------------------------------------------------

  /** A letter that is delivered is the newest of its reader's inbox and of its
      writer's outbox, and nobody else's boxes change. */
  lemma SendDelivers(s: Store, from: nat, to: nat, subject: string, body: string, replyTo: nat, now: int, v: nat)
    requires Send(s, from, to, subject, body, replyTo, now).outcome == Done
    ensures var t := Send(s, from, to, subject, body, replyTo, now).store;
            var c := CleanLetter(subject, body);
            && c.Letter?
            && var m := View(NewRow(s, from, to, c.subject, c.body, replyTo, now));
            && m.from == from && m.to == to && m.subject == c.subject && m.body == c.body && m.readAt == 0
            && Inbox(t, v) == (if v == to then Inbox(s, v) + [m] else Inbox(s, v))
            && Outbox(t, v) == (if v == from then Outbox(s, v) + [m] else Outbox(s, v))
  {
    hide CleanLetter, FindUser, NextRow, Parent;
    var c := CleanLetter(subject, body);
    var r := NewRow(s, from, to, c.subject, c.body, replyTo, now);
    SelectConcat(s.rows, [r], InInbox(v));
    SelectConcat(s.rows, [r], InOutbox(v));
    SelectOne(r, InInbox(v));
    SelectOne(r, InOutbox(v));
    assert Inbox(s, v) + [] == Inbox(s, v) && Outbox(s, v) + [] == Outbox(s, v);
  }

  /** Every select that does not look at u's own copies survives u's deleting. */
  lemma DeleteSelect(s: Store, id: nat, u: nat, p: Row -> bool, q: Row -> bool)
    requires forall r :: r in s.rows ==> Select(Deleting(id, u)(r), p) == Select([r], q)
    ensures Select(Delete(s, id, u).store.rows, p) == if Delete(s, id, u).outcome == Done then Select(s.rows, q) else Select(s.rows, p)
  {
    hide Deleting, FindSeen, Select, Rewrite;
    SelectRewritten(s.rows, Deleting(id, u), p, q);
  }

  function But(p: Row -> bool, id: nat): Row -> bool { (r: Row) => p(r) && r.id != id }

  lemma DeletingOthers(id: nat, u: nat, v: nat, t: nat, r: Row)
    requires u != v && !(r.goneFrom && r.goneTo)
    ensures Select(Deleting(id, u)(r), InInbox(v)) == Select([r], InInbox(v))
    ensures Select(Deleting(id, u)(r), InOutbox(v)) == Select([r], InOutbox(v))
    ensures Select(Deleting(id, u)(r), InThread(t, v)) == Select([r], InThread(t, v))
  {
    DeletingShape(id, u, r);
    var t1 := if r.id != id || !Visible(r, u) then r else r.(goneFrom := r.goneFrom || r.from == u, goneTo := r.goneTo || r.to == u);
    OneOfEach(r, v, t);
    OneOfEach(t1, v, t);
    NoneOfEach(v, t);
  }

  lemma DeletingShape(id: nat, u: nat, r: Row)
    ensures var t := r.(goneFrom := r.goneFrom || r.from == u, goneTo := r.goneTo || r.to == u);
            Deleting(id, u)(r) == if r.id != id || !Visible(r, u) then [r] else if t.goneFrom && t.goneTo then [] else [t]
  {
  }

  lemma OneOfEach(r: Row, v: nat, t: nat)
    ensures Select([r], InInbox(v)) == if r.to == v && !r.goneTo then [View(r)] else []
    ensures Select([r], InOutbox(v)) == if r.from == v && !r.goneFrom then [View(r)] else []
    ensures Select([r], InThread(t, v)) == if r.thread == t && Visible(r, v) then [View(r)] else []
  {
    SelectOne(r, InInbox(v));
    SelectOne(r, InOutbox(v));
    SelectOne(r, InThread(t, v));
  }

  lemma NoneOfEach(v: nat, t: nat)
    ensures Select([], InInbox(v)) == [] && Select([], InOutbox(v)) == [] && Select([], InThread(t, v)) == []
  {
  }

  lemma DeletingOwn(id: nat, u: nat, r: Row)
    ensures Select(Deleting(id, u)(r), InInbox(u)) == Select([r], But(InInbox(u), id))
    ensures Select(Deleting(id, u)(r), InOutbox(u)) == Select([r], But(InOutbox(u), id))
  {
    DeletingShape(id, u, r);
    var t1 := if r.id != id || !Visible(r, u) then r else r.(goneFrom := r.goneFrom || r.from == u, goneTo := r.goneTo || r.to == u);
    OneOfEach(t1, u, 0);
    NoneOfEach(u, 0);
    SelectOne(r, But(InInbox(u), id));
    SelectOne(r, But(InOutbox(u), id));
  }

  ghost predicate NoneGone(rows: seq<Row>) { forall r :: r in rows ==> !(r.goneFrom && r.goneTo) }

  /** Deleting a letter leaves every other user's inbox, outbox and threads as
      they were, and takes exactly that letter out of one's own. */
  lemma DeleteIsPrivate(s: Store, id: nat, u: nat, v: nat, m: nat)
    requires NoneGone(s.rows) && RowsOrdered(s.rows)
    ensures var r := Delete(s, id, u);
            && (u != v ==> Inbox(r.store, v) == Inbox(s, v) && Outbox(r.store, v) == Outbox(s, v))
            && (u != v ==> ThreadOf(r.store, m, v) == ThreadOf(s, m, v))
            && (r.outcome == Done ==>
                  && Inbox(r.store, u) == Select(s.rows, But(InInbox(u), id))
                  && Outbox(r.store, u) == Select(s.rows, But(InOutbox(u), id)))
  {
    hide Deleting, Delete, Select, InInbox, InOutbox, InThread, But, Rewrite, FindSeen, ThreadOf;
    if u != v {
      forall t: nat ensures Select(Delete(s, id, u).store.rows, InThread(t, v)) == Select(s.rows, InThread(t, v)) {
        forall r | r in s.rows ensures Select(Deleting(id, u)(r), InThread(t, v)) == Select([r], InThread(t, v)) {
          DeletingOthers(id, u, v, t, r);
        }
        DeleteSelect(s, id, u, InThread(t, v), InThread(t, v));
      }
      OthersKept(s, id, u, v);
      ThreadKept(s, id, u, v, m);
    }
    forall r | r in s.rows
      ensures Select(Deleting(id, u)(r), InInbox(u)) == Select([r], But(InInbox(u), id))
      ensures Select(Deleting(id, u)(r), InOutbox(u)) == Select([r], But(InOutbox(u), id))
    {
      DeletingOwn(id, u, r);
    }
    DeleteSelect(s, id, u, InInbox(u), But(InInbox(u), id));
    DeleteSelect(s, id, u, InOutbox(u), But(InOutbox(u), id));
  }

  lemma OthersKept(s: Store, id: nat, u: nat, v: nat)
    requires NoneGone(s.rows) && u != v
    ensures Inbox(Delete(s, id, u).store, v) == Inbox(s, v) && Outbox(Delete(s, id, u).store, v) == Outbox(s, v)
  {
    hide Deleting, Delete, Select, InInbox, InOutbox, Rewrite, FindSeen;
    forall r | r in s.rows
      ensures Select(Deleting(id, u)(r), InInbox(v)) == Select([r], InInbox(v))
      ensures Select(Deleting(id, u)(r), InOutbox(v)) == Select([r], InOutbox(v))
    {
      DeletingOthers(id, u, v, 0, r);
    }
    DeleteSelect(s, id, u, InInbox(v), InInbox(v));
    DeleteSelect(s, id, u, InOutbox(v), InOutbox(v));
  }

  /** v sees the same rows, with the same threads, before and after. */
  lemma SeenAlike(s: Store, id: nat, u: nat, v: nat, m: nat)
    requires NoneGone(s.rows) && RowsOrdered(s.rows) && u != v
    ensures var a, b := FindSeen(s.rows, m, v), FindSeen(Delete(s, id, u).store.rows, m, v);
            (a.Seen? <==> b.Seen?) && (a.Seen? ==> a.row.thread == b.row.thread)
  {
    hide Select, Rewrite, RowsOrdered;
    var rows := Delete(s, id, u).store.rows;
    var a, b := FindSeen(s.rows, m, v), FindSeen(rows, m, v);
    if Delete(s, id, u).outcome == Done {
      RewritesKeepIds(id, u, 0);
      RewriteOrdered(s.rows, Deleting(id, u));
      if a.Seen? {
        var t := KeptFor(s.rows, id, u, v, a.row);
        assert b.Seen?;
        UniqueId(rows, b.row, t);
      }
      if b.Seen? {
        var r := RewriteOrigin(s.rows, Deleting(id, u), b.row);
        assert a.Seen?;
      }
    }
  }

  lemma KeptFor(rows: seq<Row>, id: nat, u: nat, v: nat, r: Row) returns (t: Row)
    requires r in rows && Visible(r, v) && u != v && !(r.goneFrom && r.goneTo)
    ensures t in Rewrite(rows, Deleting(id, u)) && t.id == r.id && t.thread == r.thread && Visible(t, v)
  {
    hide Rewrite;
    DeletingShape(id, u, r);
    t := Deleting(id, u)(r)[0];
    RewriteMember(rows, Deleting(id, u), r, t);
  }

  lemma ThreadKept(s: Store, id: nat, u: nat, v: nat, m: nat)
    requires NoneGone(s.rows) && RowsOrdered(s.rows) && u != v
    requires forall t: nat :: Select(Delete(s, id, u).store.rows, InThread(t, v)) == Select(s.rows, InThread(t, v))
    ensures ThreadOf(Delete(s, id, u).store, m, v) == ThreadOf(s, m, v)
  {
    hide Deleting, Delete, Select, InThread, Rewrite, FindSeen;
    SeenAlike(s, id, u, v, m);
  }

  lemma LeavingOthers(id: nat, v: nat, r: Row)
    requires id != v && !(r.goneFrom && r.goneTo)
    ensures Select(Leaving(id)(r), InInbox(v)) == Select([r], InInbox(v))
    ensures Select(Leaving(id)(r), InOutbox(v)) == Select([r], NotTo(InOutbox(v), id))
  {
    LeavingShape(id, r);
    SelectOne(r, NotTo(InOutbox(v), id));
    OneOfEach(r, v, 0);
    OneOfEach(if r.from == id then r.(goneFrom := true) else r, v, 0);
    NoneOfEach(v, 0);
  }

  lemma LeavingShape(id: nat, r: Row)
    ensures var t := if r.from == id then r.(goneFrom := true) else r;
            Leaving(id)(r) == if r.to == id || (t.goneFrom && t.goneTo) then [] else [t]
  {
  }

  function NotTo(p: Row -> bool, id: nat): Row -> bool { (r: Row) => p(r) && r.to != id }

  /** Removing an account leaves every other inbox as it was, and takes from other
      outboxes exactly what was addressed to it. */
  lemma DeleteUserKeeps(s: Store, actor: nat, id: nat, v: nat)
    requires NoneGone(s.rows) && DeleteUser(s, actor, id).outcome == Done && v != id
    ensures var t := DeleteUser(s, actor, id).store;
            Inbox(t, v) == Inbox(s, v) && Outbox(t, v) == Select(s.rows, NotTo(InOutbox(v), id))
  {
    hide Leaving, Select, InInbox, InOutbox, Rewrite, FindUser, WithoutUser, NotTo;
    forall r | r in s.rows
      ensures Select(Leaving(id)(r), InInbox(v)) == Select([r], InInbox(v))
      ensures Select(Leaving(id)(r), InOutbox(v)) == Select([r], NotTo(InOutbox(v), id))
    {
      LeavingOthers(id, v, r);
    }
    SelectRewritten(s.rows, Leaving(id), InInbox(v), InInbox(v));
    SelectRewritten(s.rows, Leaving(id), InOutbox(v), NotTo(InOutbox(v), id));
  }

  // ---- whole runs ------------------------------------------------------------------------

  /** Where a row came from, numbered by a counter that is never reset: its own
      number, its conversation's, and the number of the row it answers (0: none). */
  datatype Origin = Origin(serial: nat, talk: nat, parent: nat)

  /** A store with the history of its rows, by row id. */
  datatype World = World(store: Store, origin: map<nat, Origin>, next: nat)

  datatype Op =
    | DoSend(from: nat, to: nat, subject: string, body: string, replyTo: nat, now: int)
    | DoRead(id: nat, u: nat, now: int)
    | DoDelete(id: nat, u: nat)
    | DoCreate(handleKey: string, approve: bool)
    | DoRemove(actor: nat, id: nat)
    | DoBlock(u: nat, other: nat)
    | DoUnblock(u: nat, other: nat)
    | DoPromote(id: nat, sysop: bool, validated: bool)

  function Promote(users: seq<User>, id: nat, sysop: bool, validated: bool): seq<User> {
    if users == [] then []
    else [if users[0].id == id then users[0].(sysop := sysop, validated := validated) else users[0]]
         + Promote(users[1..], id, sysop, validated)
  }

  function OriginOf(w: World, id: nat): Origin { if id in w.origin then w.origin[id] else Origin(0, 0, 0) }

  /** A new row begins a conversation, or joins the one of the row it answers. */
  function NewOrigin(w: World, from: nat, replyTo: nat): Origin {
    match Parent(w.store, from, replyTo)
    case NoRow => Origin(w.next, w.next, 0)
    case Seen(p) => Origin(w.next, OriginOf(w, p.id).talk, OriginOf(w, p.id).serial)
  }

  function Step(w: World, op: Op): World {
    match op
    case DoSend(from, to, subject, body, replyTo, now) =>
      var r := Send(w.store, from, to, subject, body, replyTo, now);
      if r.outcome != Done then w
      else World(r.store, w.origin[NextRow(w.store.rows) := NewOrigin(w, from, replyTo)], w.next + 1)
    case DoRead(id, u, now) => w.(store := MarkRead(w.store, id, u, now).store)
    case DoDelete(id, u) => w.(store := Delete(w.store, id, u).store)
    case DoCreate(handleKey, approve) => w.(store := CreateUser(w.store, handleKey, approve).store)
    case DoRemove(actor, id) => w.(store := DeleteUser(w.store, actor, id).store)
    case DoBlock(u, other) => w.(store := Block(w.store, u, other).store)
    case DoUnblock(u, other) => w.(store := w.store.(blocks := w.store.blocks - {(u, other)}))
    case DoPromote(id, sysop, validated) => w.(store := w.store.(users := Promote(w.store.users, id, sysop, validated)))
  }

  const EMPTY := World(Store([], {}, []), map[], 1)

  function Run(ops: seq<Op>): World {
    if ops == [] then EMPTY else Step(Run(ops[..|ops| - 1]), ops[|ops| - 1])
  }

  // ---- the invariants ------------------------------------------------------------------------

  ghost predicate UsersOrdered(users: seq<User>) { forall i, j :: 0 <= i < j < |users| ==> users[i].id < users[j].id }

  ghost predicate HasUser(s: Store, id: nat) { exists u :: u in s.users && u.id == id }

  /** Nothing in the store points at an account that is gone. */
  ghost predicate NoDangling(s: Store) {
    && (forall r :: r in s.rows ==> HasUser(s, r.to) && (HasUser(s, r.from) || r.goneFrom))
    && (forall b :: b in s.blocks ==> HasUser(s, b.0) && HasUser(s, b.1))
  }

  ghost predicate Capped(s: Store) { forall u :: |Inbox(s, u)| <= MAX_INBOX }

  /** Threads and parents say what they said when the row was written. */
  ghost predicate Honest(w: World) {
    && (forall r :: r in w.store.rows ==> GoodRow(w, r))
    && (forall r, x :: r in w.store.rows && x in w.store.rows ==> SameTalk(w, r, x))
    && (forall r, x :: r in w.store.rows && x in w.store.rows ==> TrueParent(w, r, x))
  }

  ghost predicate GoodRow(w: World, r: Row) {
    && 1 <= r.thread <= r.id && r.replyTo < r.id && r.id in w.origin
    && w.origin[r.id].talk < w.next && w.origin[r.id].serial < w.next && (r.replyTo == 0 <==> w.origin[r.id].parent == 0)
    && w.origin[r.id].serial >= 1
  }

  ghost predicate SameTalk(w: World, r: Row, x: Row) {
    r.thread == x.thread <==> OriginOf(w, r.id).talk == OriginOf(w, x.id).talk
  }

  ghost predicate TrueParent(w: World, r: Row, x: Row) {
    r.replyTo == x.id ==> OriginOf(w, r.id).parent == OriginOf(w, x.id).serial
  }

  ghost predicate Inv(w: World) {
    && w.next >= 1 && RowsOrdered(w.store.rows) && UsersOrdered(w.store.users) && NoneGone(w.store.rows)
    && NoDangling(w.store) && Capped(w.store) && Honest(w)
  }

  // ---- updates and deletes keep them ---------------------------------------------------------

  /** What every UPDATE and DELETE here does to a row, if it leaves it at all. */
  ghost predicate Tame(f: Row -> seq<Row>) {
    forall r :: |f(r)| <= 1 && (f(r) != [] ==> Softer(r, f(r)[0]))
  }

  predicate Softer(r: Row, t: Row) {
    && t.id == r.id && t.thread == r.thread && t.replyTo == r.replyTo && t.to == r.to && t.from == r.from
    && (r.goneFrom ==> t.goneFrom) && (r.goneTo ==> t.goneTo) && (!(r.goneFrom && r.goneTo) ==> !(t.goneFrom && t.goneTo))
  }

  lemma AllTame(id: nat, u: nat, now: int)
    ensures Tame(Reading(id, u, now)) && Tame(Deleting(id, u)) && Tame(Leaving(id))
  {
  }

  lemma TameOrigin(rows: seq<Row>, f: Row -> seq<Row>, t: Row) returns (r: Row)
    requires Tame(f) && t in Rewrite(rows, f)
    ensures r in rows && Softer(r, t) && t in f(r)
  {
    hide Rewrite, Softer;
    r := RewriteOrigin(rows, f, t);
    assert |f(r)| <= 1;
    assert f(r)[0] == t;
  }

  lemma {:induction false} TameInbox(rows: seq<Row>, f: Row -> seq<Row>, u: nat)
    requires Tame(f)
    ensures |Select(Rewrite(rows, f), InInbox(u))| <= |Select(rows, InInbox(u))|
  {
    if rows != [] {
      TameInbox(rows[1..], f, u);
      SelectConcat(f(rows[0]), Rewrite(rows[1..], f), InInbox(u));
      assert |f(rows[0])| <= 1;
      if f(rows[0]) != [] {
        assert f(rows[0]) == [f(rows[0])[0]];
        SelectOne(f(rows[0])[0], InInbox(u));
      }
    }
  }

  lemma TameRows(rows: seq<Row>, f: Row -> seq<Row>)
    requires Tame(f) && RowsOrdered(rows) && NoneGone(rows)
    ensures RowsOrdered(Rewrite(rows, f)) && NoneGone(Rewrite(rows, f))
  {
    hide Rewrite;
    assert KeepsId(f);
    RewriteOrdered(rows, f);
    forall t | t in Rewrite(rows, f) ensures !(t.goneFrom && t.goneTo) {
      var r := TameOrigin(rows, f, t);
    }
  }

  lemma TameHonest(w: World, f: Row -> seq<Row>, v: World)
    requires Honest(w) && Tame(f) && v.origin == w.origin && v.next == w.next
    requires v.store.rows == Rewrite(w.store.rows, f)
    ensures Honest(v)
  {
    hide Rewrite, Tame;
    forall t | t in v.store.rows ensures GoodRow(v, t) {
      var r := TameOrigin(w.store.rows, f, t);
      assert GoodRow(w, r);
    }
    forall t, y | t in v.store.rows && y in v.store.rows ensures SameTalk(v, t, y) && TrueParent(v, t, y) {
      var r := TameOrigin(w.store.rows, f, t);
      var x := TameOrigin(w.store.rows, f, y);
      assert SameTalk(w, r, x) && TrueParent(w, r, x);
    }
  }

  lemma TameCapped(s: Store, f: Row -> seq<Row>, t: Store)
    requires Capped(s) && Tame(f) && t.rows == Rewrite(s.rows, f)
    ensures Capped(t)
  {
    hide Select, Rewrite, Tame;
    forall u ensures |Inbox(t, u)| <= MAX_INBOX {
      TameInbox(s.rows, f, u);
      assert |Inbox(s, u)| <= MAX_INBOX;
    }
  }

  lemma TameDangling(s: Store, f: Row -> seq<Row>)
    requires NoDangling(s) && Tame(f)
    ensures NoDangling(s.(rows := Rewrite(s.rows, f)))
  {
    hide Rewrite, Tame;
    var t := s.(rows := Rewrite(s.rows, f));
    forall x | x in t.rows ensures HasUser(t, x.to) && (HasUser(t, x.from) || x.goneFrom) {
      var r := TameOrigin(s.rows, f, x);
      assert HasUser(s, r.to) && (HasUser(s, r.from) || r.goneFrom);
    }
    forall b | b in t.blocks ensures HasUser(t, b.0) && HasUser(t, b.1) {
      assert HasUser(s, b.0) && HasUser(s, b.1);
    }
  }

  lemma RewriteKeeps(w: World, f: Row -> seq<Row>)
    requires Inv(w) && Tame(f)
    ensures Inv(w.(store := w.store.(rows := Rewrite(w.store.rows, f))))
  {
    hide Rewrite, Tame, NoneGone, RowsOrdered, Capped, Honest, NoDangling;
    var v := w.(store := w.store.(rows := Rewrite(w.store.rows, f)));
    TameRows(w.store.rows, f);
    TameHonest(w, f, v);
    TameCapped(w.store, f, v.store);
    TameDangling(w.store, f);
  }

  // ---- removing an account ----------------------------------------------------------------------

  lemma {:induction false} WithoutUserIs(users: seq<User>, id: nat)
    requires UsersOrdered(users)
    ensures UsersOrdered(WithoutUser(users, id))
    ensures forall u :: u in WithoutUser(users, id) <==> u in users && u.id != id
  {
    if users != [] {
      WithoutUserIs(users[1..], id);
      assert users == [users[0]] + users[1..];
      var rest := WithoutUser(users[1..], id);
      forall u | u in rest ensures users[0].id < u.id {
        assert u in users[1..];
      }
      Text.Prepended(users[0], rest, (a: User, b: User) => a.id < b.id);
    }
  }

  lemma OtherUser(s: Store, t: Store, id: nat, v: nat)
    requires HasUser(s, v) && v != id && forall u :: u in s.users && u.id != id ==> u in t.users
    ensures HasUser(t, v)
  {
    var u :| u in s.users && u.id == v;
    assert u in t.users;
  }

  lemma LeavingRow(id: nat, r: Row, t: Row)
    requires t in Leaving(id)(r)
    ensures t.to == r.to && t.from == r.from && t.to != id && (t.from == id ==> t.goneFrom) && (r.goneFrom ==> t.goneFrom)
  {
    LeavingShape(id, r);
  }

  lemma RemoveDangling(s: Store, actor: nat, id: nat)
    requires NoDangling(s) && UsersOrdered(s.users) && DeleteUser(s, actor, id).outcome == Done
    ensures NoDangling(DeleteUser(s, actor, id).store)
  {
    hide Leaving, Rewrite, WithoutUser, FindUser, UsersOrdered, HasUser;
    WithoutUserIs(s.users, id);
    var t := DeleteUser(s, actor, id).store;
    forall x | x in t.rows ensures HasUser(t, x.to) && (HasUser(t, x.from) || x.goneFrom) {
      var r := RewriteOrigin(s.rows, Leaving(id), x);
      LeavingRow(id, r, x);
      OtherUser(s, t, id, r.to);
      if !x.goneFrom {
        OtherUser(s, t, id, r.from);
      }
    }
    forall b | b in t.blocks ensures HasUser(t, b.0) && HasUser(t, b.1) {
      OtherUser(s, t, id, b.0);
      OtherUser(s, t, id, b.1);
    }
  }

  lemma RemoveKeeps(w: World, actor: nat, id: nat)
    requires Inv(w)
    ensures Inv(Step(w, DoRemove(actor, id)))
  {
    hide Rewrite, Tame, NoneGone, RowsOrdered, Capped, Honest, NoDangling, Leaving, FindUser, WithoutUser, UsersOrdered;
    var v := Step(w, DoRemove(actor, id));
    if DeleteUser(w.store, actor, id).outcome == Done {
      AllTame(id, 0, 0);
      TameRows(w.store.rows, Leaving(id));
      TameHonest(w, Leaving(id), v);
      TameCapped(w.store, Leaving(id), v.store);
      RemoveDangling(w.store, actor, id);
      WithoutUserIs(w.store.users, id);
    }
  }

  // ---- accounts ---------------------------------------------------------------------------------

  /** A change of accounts that forgets none keeps everything else. */
  lemma UsersKeep(w: World, users: seq<User>, blocks: set<(nat, nat)>)
    requires Inv(w) && UsersOrdered(users)
    requires forall v: nat :: HasUser(w.store, v) ==> HasUser(Store(users, blocks, w.store.rows), v)
    requires forall b :: b in blocks ==> b in w.store.blocks || (HasUser(w.store, b.0) && HasUser(w.store, b.1))
    ensures Inv(w.(store := Store(users, blocks, w.store.rows)))
  {
    hide HasUser, Select, RowsOrdered, NoneGone, GoodRow, SameTalk, TrueParent;
    var v := w.(store := Store(users, blocks, w.store.rows));
    assert forall u :: Inbox(v.store, u) == Inbox(w.store, u);
    SameHistory(w, v);
  }

  lemma SameHistory(w: World, v: World)
    requires Honest(w) && v.origin == w.origin && v.next == w.next && v.store.rows == w.store.rows
    ensures Honest(v)
  {
    forall r | r in v.store.rows ensures GoodRow(v, r) {
      assert GoodRow(w, r);
    }
    forall r, x | r in v.store.rows && x in v.store.rows ensures SameTalk(v, r, x) && TrueParent(v, r, x) {
      assert SameTalk(w, r, x) && TrueParent(w, r, x);
    }
  }

  lemma {:induction false} PromoteIs(users: seq<User>, id: nat, sysop: bool, validated: bool)
    ensures var p := Promote(users, id, sysop, validated);
            |p| == |users| && forall i :: 0 <= i < |p| ==> p[i].id == users[i].id && p[i].handleKey == users[i].handleKey
  {
    if users != [] {
      PromoteIs(users[1..], id, sysop, validated);
    }
  }

  lemma CreateKeeps(w: World, handleKey: string, approve: bool)
    requires Inv(w)
    ensures Inv(Step(w, DoCreate(handleKey, approve)))
  {
    hide Capped, Honest, NoDangling, RowsOrdered, NoneGone;
    var r := CreateUser(w.store, handleKey, approve);
    if r.outcome == Done {
      forall v: nat | HasUser(w.store, v) ensures HasUser(r.store, v) {
        var u :| u in w.store.users && u.id == v;
        assert u in r.store.users;
      }
      UsersKeep(w, r.store.users, w.store.blocks);
    }
  }

  lemma PromoteKeeps(w: World, id: nat, sysop: bool, validated: bool)
    requires Inv(w)
    ensures Inv(Step(w, DoPromote(id, sysop, validated)))
  {
    hide Capped, Honest, NoDangling, RowsOrdered, NoneGone, Promote;
    PromoteIs(w.store.users, id, sysop, validated);
    var users := Promote(w.store.users, id, sysop, validated);
    forall v: nat | HasUser(w.store, v) ensures HasUser(Store(users, w.store.blocks, w.store.rows), v) {
      var u :| u in w.store.users && u.id == v;
      var i :| 0 <= i < |w.store.users| && w.store.users[i] == u;
      assert users[i] in users;
    }
    UsersKeep(w, users, w.store.blocks);
  }

  lemma FoundUser(s: Store, id: nat)
    ensures Exists(s, id) <==> HasUser(s, id)
  {
    hide FindUser;
    var f := FindUser(s.users, id);
  }

  lemma BlockKeeps(w: World, u: nat, other: nat)
    requires Inv(w)
    ensures Inv(Step(w, DoBlock(u, other))) && Inv(Step(w, DoUnblock(u, other)))
  {
    hide Capped, Honest, NoDangling, RowsOrdered, NoneGone, FindUser, HasUser;
    FoundUser(w.store, u);
    FoundUser(w.store, other);
    SameUsers(w, w.store.blocks + {(u, other)});
    SameUsers(w, w.store.blocks - {(u, other)});
    if Block(w.store, u, other).outcome == Done {
      UsersKeep(w, w.store.users, w.store.blocks + {(u, other)});
    }
    UsersKeep(w, w.store.users, w.store.blocks - {(u, other)});
  }

  lemma SameUsers(w: World, blocks: set<(nat, nat)>)
    ensures forall v: nat :: HasUser(Store(w.store.users, blocks, w.store.rows), v) <==> HasUser(w.store, v)
  {
  }

  // ---- sending -------------------------------------------------------------------------------------

  lemma NextIsGreatest(rows: seq<Row>)
    requires RowsOrdered(rows)
    ensures NextRow(rows) >= 1 && forall r :: r in rows ==> r.id < NextRow(rows)
  {
  }

  lemma ParentRow(w: World, from: nat, replyTo: nat)
    requires Inv(w)
    ensures var p := Parent(w.store, from, replyTo);
            p.Seen? ==> p.row in w.store.rows && p.row.id == replyTo && GoodRow(w, p.row)
  {
    hide FindSeen, RowsOrdered, Capped, NoDangling, GoodRow;
  }

  lemma SendHonest(w: World, from: nat, to: nat, sub: string, bod: string, replyTo: nat, now: int, v: World)
    requires Inv(w)
    requires v.store.rows == w.store.rows + [NewRow(w.store, from, to, sub, bod, replyTo, now)]
    requires v.origin == w.origin[NextRow(w.store.rows) := NewOrigin(w, from, replyTo)] && v.next == w.next + 1
    ensures Honest(v)
  {
    hide FindSeen, NextRow, Capped, NoDangling, Parent;
    var n := NewRow(w.store, from, to, sub, bod, replyTo, now);
    NextIsGreatest(w.store.rows);
    ParentRow(w, from, replyTo);
    var p := Parent(w.store, from, replyTo);
    ParentZero(w.store, from, replyTo);
    forall r | r in w.store.rows ensures GoodRow(w, r) && OriginOf(v, r.id) == OriginOf(w, r.id) && OriginOf(w, r.id).talk < w.next {
    }
    forall r | r in v.store.rows ensures GoodRow(v, r) {
      if r != n {
        assert GoodRow(w, r);
      }
    }
    forall r, x | r in v.store.rows && x in v.store.rows ensures SameTalk(v, r, x) && TrueParent(v, r, x) {
      if r in w.store.rows && x in w.store.rows {
        assert SameTalk(w, r, x) && TrueParent(w, r, x);
      } else if r in w.store.rows {
        NewAgainst(w, p, n, v, r);
      } else if x in w.store.rows {
        NewAgainst(w, p, n, v, x);
      }
    }
  }

  lemma ParentZero(s: Store, from: nat, replyTo: nat)
    ensures replyTo == 0 ==> Parent(s, from, replyTo).NoRow?
  {
  }

  /** The new row beside an older one: the same thread only if it joined it, and
      no older row takes the new one for its parent. */
  lemma NewAgainst(w: World, p: MaybeRow, n: Row, v: World, r: Row)
    requires Honest(w) && RowsOrdered(w.store.rows) && r in w.store.rows && r.id < n.id
    requires OriginOf(v, r.id) == OriginOf(w, r.id)
    requires p.Seen? ==> p.row in w.store.rows && n.thread == p.row.thread && n.replyTo == p.row.id
                         && OriginOf(v, n.id) == Origin(w.next, OriginOf(w, p.row.id).talk, OriginOf(w, p.row.id).serial)
    requires p.NoRow? ==> n.thread == n.id && n.replyTo == 0 && OriginOf(v, n.id) == Origin(w.next, w.next, 0)
    ensures SameTalk(v, r, n) && SameTalk(v, n, r) && TrueParent(v, r, n) && TrueParent(v, n, r)
  {
    assert GoodRow(w, r);
    if p.Seen? {
      assert SameTalk(w, r, p.row) && GoodRow(w, p.row);
      if r.id == p.row.id {
        UniqueId(w.store.rows, r, p.row);
      }
    }
  }

  lemma SendStore(s: Store, from: nat, to: nat, subject: string, body: string, replyTo: nat, now: int)
    requires RowsOrdered(s.rows) && NoneGone(s.rows) && NoDangling(s) && Capped(s)
    requires Send(s, from, to, subject, body, replyTo, now).outcome == Done
    ensures var t := Send(s, from, to, subject, body, replyTo, now).store;
            RowsOrdered(t.rows) && NoneGone(t.rows) && NoDangling(t) && Capped(t)
  {
    hide CleanLetter, Parent, Select, NextRow;
    var r := Send(s, from, to, subject, body, replyTo, now);
    NextIsGreatest(s.rows);
    RefusalDone(s, from, to);
    forall u ensures |Inbox(r.store, u)| <= MAX_INBOX {
      SendDelivers(s, from, to, subject, body, replyTo, now, u);
      assert |Inbox(s, u)| <= MAX_INBOX;
    }
    SendDangling(s, from, to, subject, body, replyTo, now);
  }

  lemma RefusalDone(s: Store, from: nat, to: nat)
    requires Refusal(s, from, to) == Done
    ensures HasUser(s, from) && HasUser(s, to) && |Inbox(s, to)| < MAX_INBOX
  {
    hide FindUser, Select;
    FoundUser(s, from);
    FoundUser(s, to);
  }

  lemma SendDangling(s: Store, from: nat, to: nat, subject: string, body: string, replyTo: nat, now: int)
    requires NoDangling(s) && Send(s, from, to, subject, body, replyTo, now).outcome == Done
    ensures NoDangling(Send(s, from, to, subject, body, replyTo, now).store)
  {
    hide CleanLetter, Parent, Select, NextRow, Refusal;
    RefusalDone(s, from, to);
    var t := Send(s, from, to, subject, body, replyTo, now).store;
    forall v: nat ensures HasUser(t, v) <==> HasUser(s, v) {
    }
  }

  lemma SendKeeps(w: World, from: nat, to: nat, subject: string, body: string, replyTo: nat, now: int)
    requires Inv(w)
    ensures Inv(Step(w, DoSend(from, to, subject, body, replyTo, now)))
  {
    hide CleanLetter, Refusal, NewRow, NewOrigin, Capped, NoDangling, RowsOrdered, NoneGone, Honest;
    var r := Send(w.store, from, to, subject, body, replyTo, now);
    if r.outcome == Done {
      var c := CleanLetter(subject, body);
      SendStore(w.store, from, to, subject, body, replyTo, now);
      SendHonest(w, from, to, c.subject, c.body, replyTo, now, Step(w, DoSend(from, to, subject, body, replyTo, now)));
    }
  }

  lemma StepKeeps(w: World, op: Op)
    requires Inv(w)
    ensures Inv(Step(w, op))
  {
    hide Inv, Tame, Rewrite, FindSeen, Reading, Deleting, Send, CreateUser, DeleteUser, Block, Promote;
    match op
    case DoSend(from, to, subject, body, replyTo, now) => SendKeeps(w, from, to, subject, body, replyTo, now);
    case DoRead(id, u, now) =>
      AllTame(id, u, now);
      RewriteKeeps(w, Reading(id, u, now));
    case DoDelete(id, u) =>
      AllTame(id, u, 0);
      RewriteKeeps(w, Deleting(id, u));
    case DoCreate(handleKey, approve) => CreateKeeps(w, handleKey, approve);
    case DoRemove(actor, id) => RemoveKeeps(w, actor, id);
    case DoBlock(u, other) => BlockKeeps(w, u, other);
    case DoUnblock(u, other) => BlockKeeps(w, u, other);
    case DoPromote(id, sysop, validated) => PromoteKeeps(w, id, sysop, validated);
  }

  lemma {:induction false} RunKeeps(ops: seq<Op>)
    ensures Inv(Run(ops))
  {
    hide Inv, Step;
    if ops == [] {
      EmptyInv();
    } else {
      RunKeeps(ops[..|ops| - 1]);
      StepKeeps(Run(ops[..|ops| - 1]), ops[|ops| - 1]);
    }
  }

  lemma EmptyInv()
    ensures Inv(EMPTY)
  {
  }

  // ---- main results ------------------------------------------------------------------------------------

  /** Conversations never merge or split, although row ids are used again: in
      every reachable state two rows share a thread exactly when they belong to
      the same conversation, no thread number exceeds its row's id, and a row
      that a reply still names is the row it was written to. */
  lemma ThreadsAreTrue(ops: seq<Op>, r: Row, x: Row)
    requires r in Run(ops).store.rows && x in Run(ops).store.rows
    ensures var w := Run(ops);
            && (r.thread == x.thread <==> OriginOf(w, r.id).talk == OriginOf(w, x.id).talk)
            && r.thread <= r.id
            && (r.replyTo == x.id ==> OriginOf(w, r.id).parent == OriginOf(w, x.id).serial)
  {
    hide Run, RowsOrdered, NoDangling, Capped, NoneGone;
    RunKeeps(ops);
    var w := Run(ops);
    assert GoodRow(w, r) && SameTalk(w, r, x) && TrueParent(w, r, x);
  }

  /** Every reachable mailbox: no row outlives both its copies, no inbox is over
      its limit, and deleting is private. */
  lemma MailboxesAreSafe(ops: seq<Op>, id: nat, u: nat, v: nat, m: nat)
    ensures var s := Run(ops).store;
            && NoneGone(s.rows) && |Inbox(s, v)| <= MAX_INBOX
            && (u != v ==>
                  var t := Delete(s, id, u).store;
                  Inbox(t, v) == Inbox(s, v) && Outbox(t, v) == Outbox(s, v) && ThreadOf(t, m, v) == ThreadOf(s, m, v))
  {
    hide Run, NoDangling, Honest, Select, Delete, ThreadOf;
    RunKeeps(ops);
    DeleteIsPrivate(Run(ops).store, id, u, v, m);
  }

  /** No trace of an account outlives it where its number could be read: whoever
      gets the number next starts with empty boxes and nobody's blocks. */
  lemma NewAccountIsEmpty(ops: seq<Op>, handleKey: string, approve: bool)
    requires CreateUser(Run(ops).store, handleKey, approve).outcome == Done
    ensures var s := Run(ops).store;
            var id := NextUser(s.users);
            var t := CreateUser(s, handleKey, approve).store;
            && !HasUser(s, id) && HasUser(t, id)
            && Inbox(t, id) == [] && Outbox(t, id) == [] && (forall m :: ThreadOf(t, m, id) == NoThread)
            && (forall b :: b in t.blocks ==> b.0 != id && b.1 != id)
  {
    hide Run, Honest, Capped, Select, ThreadOf;
    RunKeeps(ops);
    var s := Run(ops).store;
    var id := NextUser(s.users);
    var t := CreateUser(s, handleKey, approve).store;
    assert t.users[|t.users| - 1].id == id;
    NothingFor(s, id);
    forall m ensures ThreadOf(t, m, id) == NoThread {
      NoThreadFor(t, m, id);
    }
  }

  lemma NothingFor(s: Store, id: nat)
    requires NoDangling(s) && !HasUser(s, id)
    ensures Inbox(s, id) == [] && Outbox(s, id) == []
    ensures forall r :: r in s.rows ==> !Visible(r, id)
  {
    hide Select, HasUser;
    SelectNone(s.rows, InInbox(id));
    SelectNone(s.rows, InOutbox(id));
  }

  lemma NoThreadFor(s: Store, m: nat, id: nat)
    requires forall r :: r in s.rows ==> !Visible(r, id)
    ensures ThreadOf(s, m, id) == NoThread
  {
    hide Select, FindSeen;
  }
}
