/**
 Who may write to whom, read off the tables: the refusals of SendMessage, what a block
 does over time, whose letters a thread shows, and what an account begins with.
 */
module MailRules {
  import Text
  import opened Letters
  import opened Mail
  import opened Mailboxes

  // ---- when a letter is delivered ----------------------------------------------------

  /** The rows that fill an inbox. */
  function Waiting(rows: seq<Row>, to: nat): set<Row> { set r | r in rows && r.to == to && !r.goneTo }

  lemma FirstIsAlone(rows: seq<Row>)
    requires RowsOrdered(rows) && rows != []
    ensures rows[0] !in rows[1..] && RowsOrdered(rows[1..])
  {
    forall r | r in rows[1..] ensures rows[0].id < r.id {
      var i :| 0 <= i < |rows[1..]| && rows[1..][i] == r;
      assert rows[0].id < rows[i + 1].id;
    }
  }

  lemma WaitingFirst(first: Row, rest: seq<Row>, to: nat)
    requires first !in rest
    ensures |Waiting([first] + rest, to)| == |Waiting(rest, to)| + if first.to == to && !first.goneTo then 1 else 0
  {
    var more: set<Row> := if first.to == to && !first.goneTo then {first} else {};
    assert Waiting([first] + rest, to) == Waiting(rest, to) + more;
    assert Waiting(rest, to) !! more;
  }

  lemma {:induction false} InboxCounts(rows: seq<Row>, to: nat)
    requires RowsOrdered(rows)
    ensures |Select(rows, InInbox(to))| == |Waiting(rows, to)|
    decreases |rows|
  {
    hide RowsOrdered;
    if rows == [] {
      assert Waiting(rows, to) == {};
    } else {
      FirstIsAlone(rows);
      InboxCounts(rows[1..], to);
      assert rows == [rows[0]] + rows[1..];
      WaitingFirst(rows[0], rows[1..], to);
    }
  }

  lemma TheUser(s: Store, u: User)
    requires UsersOrdered(s.users) && u in s.users
    ensures FindUser(s.users, u.id) == Found(u)
  {
    hide FindUser;
    var f := FindUser(s.users, u.id);
    assert f.Found?;
    OneUser(s.users, f.user, u);
  }

  lemma OneUser(users: seq<User>, a: User, b: User)
    requires UsersOrdered(users) && a in users && b in users && a.id == b.id
    ensures a == b
  {
  }

  /** Both accounts are there, and what stands between them is read off the tables. */
  lemma RefusedBecause(s: Store, a: User, b: User)
    requires UsersOrdered(s.users) && RowsOrdered(s.rows) && a in s.users && b in s.users
    ensures var why := Refusal(s, a.id, b.id);
            var unknown := !a.validated && !b.sysop;
            var blocked := !a.sysop && (b.id, a.id) in s.blocks;
            && (why == NotValidated <==> unknown)
            && (why == Blocked <==> !unknown && blocked)
            && (why == MailboxFull <==> !unknown && !blocked && |Waiting(s.rows, b.id)| >= 500)
            && (why == Done <==> !unknown && !blocked && |Waiting(s.rows, b.id)| < 500)
  {
    hide FindUser, Select, Waiting;
    TheUser(s, a);
    TheUser(s, b);
    InboxCounts(s.rows, b.id);
  }

  lemma NobodyThere(s: Store, from: nat, to: nat)
    ensures Refusal(s, from, to) == NotFound <==> !HasUser(s, from) || !HasUser(s, to)
  {
    hide FindUser, Select;
    FoundUser(s, from);
    FoundUser(s, to);
  }

  ghost predicate MayWrite(s: Store, a: User, b: User) {
    && a in s.users && b in s.users && (a.validated || b.sysop) && (a.sysop || (b.id, a.id) !in s.blocks)
    && |Waiting(s.rows, b.id)| < 500
  }

  ghost predicate CanWrite(s: Store, from: nat, to: nat) {
    exists a: User, b: User :: MayWrite(s, a, b) && a.id == from && b.id == to
  }

  /** A letter is delivered if and only if it has a subject and a body of a proper size,
      both accounts exist, the writer is validated or the reader a sysop, the reader has
      not blocked the writer unless that is a sysop, and fewer than 500 letters wait. */
  lemma DeliveredExactly(s: Store, from: nat, to: nat, subject: string, body: string, replyTo: nat, now: int)
    requires UsersOrdered(s.users) && RowsOrdered(s.rows)
    ensures Send(s, from, to, subject, body, replyTo, now).outcome == Done
            <==> CleanLetter(subject, body).Letter? && CanWrite(s, from, to)
    ensures Send(s, from, to, subject, body, replyTo, now).outcome != Done ==>
              Send(s, from, to, subject, body, replyTo, now).store == s
  {
    hide CleanLetter, Refusal, NewRow, Waiting, UsersOrdered, RowsOrdered;
    NobodyThere(s, from, to);
    if HasUser(s, from) && HasUser(s, to) {
      var a :| a in s.users && a.id == from;
      var b :| b in s.users && b.id == to;
      RefusedBecause(s, a, b);
      if CanWrite(s, from, to) {
        var c: User, d: User :| MayWrite(s, c, d) && c.id == from && d.id == to;
        RefusedBecause(s, c, d);
      }
    }
  }

  // ---- a block over time -----------------------------------------------------------------

  /** No letter from other to u is younger than the block. */
  ghost predicate Kept(w: World, u: nat, other: nat, since: nat) {
    && (u, other) in w.store.blocks && since <= w.next
    && forall r :: r in w.store.rows && r.from == other && r.to == u ==> OriginOf(w, r.id).serial < since
  }

  ghost predicate IsSysop(s: Store, id: nat) { exists a :: a in s.users && a.id == id && a.sysop }

  /** Nothing that lifts the block happens, and other does not write as a sysop. */
  ghost predicate LeavesBlock(w: World, op: Op, u: nat, other: nat) {
    match op
    case DoUnblock(x, y) => !(x == u && y == other)
    case DoRemove(_, id) => id != u && id != other
    case DoSend(from, _, _, _, _, _) => from != other || !IsSysop(w.store, other)
    case _ => true
  }

  lemma SendKept(w: World, op: Op, u: nat, other: nat, since: nat)
    requires Inv(w) && Kept(w, u, other, since) && op.DoSend? && LeavesBlock(w, op, u, other)
    ensures Kept(Step(w, op), u, other, since)
  {
    hide CleanLetter, Refusal, Capped, NoDangling, NoneGone, Honest, UsersOrdered, Parent, IsSysop, FindUser;
    var r := Send(w.store, op.from, op.to, op.subject, op.body, op.replyTo, op.now);
    if r.outcome == Done {
      NextIsGreatest(w.store.rows);
      if op.from == other && op.to == u {
        BlockedWriter(w.store, u, other);
      }
    }
  }

  lemma BlockedWriter(s: Store, u: nat, other: nat)
    requires UsersOrdered(s.users) && RowsOrdered(s.rows) && (u, other) in s.blocks && !IsSysop(s, other)
    ensures Refusal(s, other, u) != Done
  {
    hide Refusal, Waiting, UsersOrdered, RowsOrdered;
    NobodyThere(s, other, u);
    if HasUser(s, other) && HasUser(s, u) {
      var a :| a in s.users && a.id == other;
      var b :| b in s.users && b.id == u;
      RefusedBecause(s, a, b);
    }
  }

  lemma RewriteKept(w: World, v: World, f: Row -> seq<Row>, u: nat, other: nat, since: nat)
    requires Kept(w, u, other, since) && Tame(f) && v.origin == w.origin && v.next == w.next
    requires v.store.rows == Rewrite(w.store.rows, f) && (u, other) in v.store.blocks
    ensures Kept(v, u, other, since)
  {
    hide Rewrite, Tame;
    forall t | t in v.store.rows && t.from == other && t.to == u ensures OriginOf(v, t.id).serial < since {
      var r := TameOrigin(w.store.rows, f, t);
    }
  }

  lemma StepKept(w: World, op: Op, u: nat, other: nat, since: nat)
    requires Inv(w) && Kept(w, u, other, since) && LeavesBlock(w, op, u, other)
    ensures Kept(Step(w, op), u, other, since)
  {
    hide Inv, Tame, Rewrite, FindSeen, Reading, Deleting, Leaving, Send, FindUser, Promote, WithoutUser;
    match op
    case DoSend(_, _, _, _, _, _) => SendKept(w, op, u, other, since);
    case DoRead(id, x, now) =>
      AllTame(id, x, now);
      RewriteKept(w, w.(store := w.store.(rows := Rewrite(w.store.rows, Reading(id, x, now)))), Reading(id, x, now), u, other, since);
    case DoDelete(id, x) =>
      AllTame(id, x, 0);
      RewriteKept(w, w.(store := w.store.(rows := Rewrite(w.store.rows, Deleting(id, x)))), Deleting(id, x), u, other, since);
    case DoRemove(actor, id) =>
      if DeleteUser(w.store, actor, id).outcome == Done {
        AllTame(id, 0, 0);
        RewriteKept(w, Step(w, op), Leaving(id), u, other, since);
      }
    case _ =>
  }

  ghost predicate LeavesBlockAt(before: seq<Op>, ops: seq<Op>, u: nat, other: nat, k: nat)
    requires k < |ops|
  {
    LeavesBlock(Run(before + ops[..k]), ops[k], u, other)
  }

  lemma {:induction false} RunKept(before: seq<Op>, ops: seq<Op>, u: nat, other: nat, since: nat)
    requires Kept(Run(before), u, other, since)
    requires forall k :: 0 <= k < |ops| ==> LeavesBlockAt(before, ops, u, other, k)
    ensures Kept(Run(before + ops), u, other, since)
    decreases |ops|
  {
    hide Step, Kept, LeavesBlock;
    if ops == [] {
      assert before + ops == before;
    } else {
      var most := ops[..|ops| - 1];
      forall k | 0 <= k < |most| ensures LeavesBlockAt(before, most, u, other, k) {
        assert LeavesBlockAt(before, ops, u, other, k) && most[..k] == ops[..k];
      }
      RunKept(before, most, u, other, since);
      RunKeeps(before + most);
      assert LeavesBlockAt(before, ops, u, other, |ops| - 1);
      StepKept(Run(before + most), ops[|ops| - 1], u, other, since);
      assert (before + ops)[..|before + ops| - 1] == before + most;
    }
  }

  /** From when u blocks other until it lifts that, whatever else happens, no letter
      that other writes reaches u, unless as a sysop: every letter from other to u that
      is there is from before the block. */
  lemma BlockHolds(before: seq<Op>, u: nat, other: nat, ops: seq<Op>)
    requires Block(Run(before).store, u, other).outcome == Done
    requires forall k :: 0 <= k < |ops| ==> LeavesBlockAt(before + [DoBlock(u, other)], ops, u, other, k)
    ensures var w := Run(before + [DoBlock(u, other)] + ops);
            forall r :: r in w.store.rows && r.from == other && r.to == u ==> OriginOf(w, r.id).serial < Run(before).next
  {
    hide Run, LeavesBlock, Inv, Step, LeavesBlockAt;
    RunKeeps(before);
    OneOp(before, DoBlock(u, other));
    BlockBegins(Run(before), u, other);
    RunKept(before + [DoBlock(u, other)], ops, u, other, Run(before).next);
  }

  lemma BlockBegins(w: World, u: nat, other: nat)
    requires Inv(w) && Block(w.store, u, other).outcome == Done
    ensures Kept(Step(w, DoBlock(u, other)), u, other, w.next)
  {
    hide Capped, NoDangling, NoneGone, RowsOrdered, UsersOrdered, FindUser;
    forall r | r in w.store.rows ensures OriginOf(w, r.id).serial < w.next {
      assert GoodRow(w, r);
    }
  }

  lemma OneOp(before: seq<Op>, op: Op)
    ensures Run(before + [op]) == Step(Run(before), op)
  {
    hide Step;
    assert (before + [op])[..|before|] == before;
  }

  // ---- replies and threads ------------------------------------------------------------------

  ghost predicate HasCopy(r: Row, u: nat) { (r.to == u && !r.goneTo) || (r.from == u && !r.goneFrom) }

  /** A letter joins the thread of a letter it names if the writer has a copy of that,
      and begins its own otherwise. */
  lemma JoinsWhatItSees(s: Store, from: nat, to: nat, subject: string, body: string, replyTo: nat, now: int, p: Row)
    requires RowsOrdered(s.rows) && p in s.rows && p.id == replyTo && 1 <= p.id && 1 <= p.thread
    ensures var n := NewRow(s, from, to, subject, body, replyTo, now);
            if HasCopy(p, from) then n.replyTo == replyTo && n.thread == p.thread else n.replyTo == 0 && n.thread == n.id
  {
    hide FindSeen;
    var seen := FindSeen(s.rows, replyTo, from);
    if seen.Seen? {
      UniqueId(s.rows, seen.row, p);
    }
  }

  lemma AnswersNothing(s: Store, from: nat, to: nat, subject: string, body: string, replyTo: nat, now: int)
    requires replyTo == 0 || forall r :: r in s.rows ==> r.id != replyTo
    ensures var n := NewRow(s, from, to, subject, body, replyTo, now); n.replyTo == 0 && n.thread == n.id
  {
    hide FindSeen;
    var seen := FindSeen(s.rows, replyTo, from);
  }

  lemma {:induction false} SelectIs(rows: seq<Row>, p: Row -> bool, m: Mail)
    ensures m in Select(rows, p) <==> exists r :: r in rows && p(r) && View(r) == m
    decreases |rows|
  {
    if rows != [] {
      SelectIs(rows[1..], p, m);
      assert rows == [rows[0]] + rows[1..];
    }
  }

  /** A thread shows its reader exactly the letters of the conversation that the reader
      has a copy of; who has no copy of the letter asked for sees none. */
  lemma ThreadShowsCopies(s: Store, u: nat, p: Row, m: Mail)
    requires RowsOrdered(s.rows) && p in s.rows
    ensures var t := ThreadOf(s, p.id, u);
            if HasCopy(p, u) then t.Thread? && (m in t.mails <==> exists r :: r in s.rows && r.thread == p.thread && HasCopy(r, u) && View(r) == m)
            else t == NoThread
  {
    hide FindSeen, Select;
    var seen := FindSeen(s.rows, p.id, u);
    if seen.Seen? {
      UniqueId(s.rows, seen.row, p);
      SelectIs(s.rows, InThread(p.thread, u), m);
    }
  }

  /** Reading marks the reader's own copy of one letter, once. */
  lemma ReadMarksOne(s: Store, id: nat, u: nat, now: int, r: Row)
    requires RowsOrdered(s.rows) && r in s.rows
    ensures var mine := r.id == id && r.to == u && !r.goneTo;
            && (mine && r.readAt == 0 ==> r.(readAt := now) in MarkRead(s, id, u, now).store.rows)
            && (!mine || r.readAt != 0 ==> r in MarkRead(s, id, u, now).store.rows)
            && (mine ==> MarkRead(s, id, u, now).outcome == Done)
  {
    hide Rewrite;
    RewriteMember(s.rows, Reading(id, u, now), r, Reading(id, u, now)(r)[0]);
  }

  // ---- accounts ---------------------------------------------------------------------------------

  /** The first account is the sysop's; the others are not, and wait for approval where
      that is asked for. No two have one handle. */
  lemma AccountBegins(s: Store, handleKey: string, approve: bool)
    ensures var r := CreateUser(s, handleKey, approve);
            var taken := exists u :: u in s.users && u.handleKey == handleKey;
            && (r.outcome == Done <==> !taken) && (taken ==> r.store == s)
            && (!taken ==>
                  exists u: User :: r.store.users == s.users + [u] && u.handleKey == handleKey
                    && (u.sysop <==> |s.users| == 0) && (u.validated <==> |s.users| == 0 || !approve))
  {
    if !(exists u :: u in s.users && u.handleKey == handleKey) {
      var first := s.users == [];
      var u := User(NextUser(s.users), handleKey, first, first || !approve);
      assert CreateUser(s, handleKey, approve).store.users == s.users + [u];
    }
  }

  /** Only a sysop removes an account, and not the own one. */
  lemma RemovedExactly(s: Store, actor: nat, id: nat)
    requires UsersOrdered(s.users)
    ensures DeleteUser(s, actor, id).outcome == Done <==> actor != id && IsSysop(s, actor) && HasUser(s, id)
    ensures DeleteUser(s, actor, id).outcome != Done ==> DeleteUser(s, actor, id).store == s
  {
    hide FindUser, Rewrite, WithoutUser;
    FoundUser(s, id);
    FoundUser(s, actor);
    if HasUser(s, actor) {
      var a :| a in s.users && a.id == actor;
      TheUser(s, a);
      if IsSysop(s, actor) {
        var b :| b in s.users && b.id == actor && b.sysop;
        OneUser(s.users, a, b);
      }
    }
  }
}
