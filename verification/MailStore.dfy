/** The mail store as the program changes it: each method runs its statements one
    after the other on the tables, and is proved against module Mail. */
module MailStore {
  import Text
  import opened Letters
  import opened Mail
  import opened Mailboxes

  /** The first UPDATE of DeleteMessage. */
  function Flagging(id: nat, u: nat): Row -> seq<Row> {
    (r: Row) => [if r.id == id && Visible(r, u) then r.(goneFrom := r.goneFrom || r.from == u, goneTo := r.goneTo || r.to == u) else r]
  }

  /** DELETE ... WHERE deleted_by_from = 1 AND deleted_by_to = 1, of one row or of all. */
  function Purging(all: bool, id: nat): Row -> seq<Row> {
    (r: Row) => if (all || r.id == id) && r.goneFrom && r.goneTo then [] else [r]
  }

  function NotReceived(id: nat): Row -> seq<Row> { (r: Row) => if r.to == id then [] else [r] }

  function Disowning(id: nat): Row -> seq<Row> { (r: Row) => [if r.from == id then r.(goneFrom := true) else r] }

  lemma {:induction false} RewriteConcat(a: seq<Row>, b: seq<Row>, f: Row -> seq<Row>)
    ensures Rewrite(a + b, f) == Rewrite(a, f) + Rewrite(b, f)
  {
    if a == [] {
      assert a + b == b;
    } else {
      assert (a + b)[1..] == a[1..] + b;
      RewriteConcat(a[1..], b, f);
      Text.Assoc(f(a[0]), Rewrite(a[1..], f), Rewrite(b, f));
    }
  }

  /** Two statements in a row are one, if they are so for every row. */
  lemma {:induction false} RewriteTwice(rows: seq<Row>, f: Row -> seq<Row>, g: Row -> seq<Row>, h: Row -> seq<Row>)
    requires forall r :: r in rows ==> Rewrite(f(r), g) == h(r)
    ensures Rewrite(Rewrite(rows, f), g) == Rewrite(rows, h)
  {
    if rows != [] {
      assert rows == [rows[0]] + rows[1..];
      RewriteTwice(rows[1..], f, g, h);
      RewriteConcat(f(rows[0]), Rewrite(rows[1..], f), g);
    }
  }

  lemma RewriteOne(r: Row, g: Row -> seq<Row>)
    ensures Rewrite([r], g) == g(r) && Rewrite([], g) == []
  {
    assert [r][1..] == [];
    assert g(r) + [] == g(r);
  }

  lemma DeleteInTwo(rows: seq<Row>, id: nat, u: nat)
    requires NoneGone(rows)
    ensures Rewrite(Rewrite(rows, Flagging(id, u)), Purging(false, id)) == Rewrite(rows, Deleting(id, u))
  {
    hide Rewrite;
    forall r | r in rows ensures Rewrite(Flagging(id, u)(r), Purging(false, id)) == Deleting(id, u)(r) {
      RewriteOne(Flagging(id, u)(r)[0], Purging(false, id));
    }
    RewriteTwice(rows, Flagging(id, u), Purging(false, id), Deleting(id, u));
  }

  function Unsent(id: nat): Row -> seq<Row> { (r: Row) => if r.to == id then [] else Disowning(id)(r) }

  lemma RemoveInThree(rows: seq<Row>, id: nat)
    ensures Rewrite(Rewrite(Rewrite(rows, NotReceived(id)), Disowning(id)), Purging(true, 0)) == Rewrite(rows, Leaving(id))
  {
    hide Rewrite;
    forall r | r in rows ensures Rewrite(NotReceived(id)(r), Disowning(id)) == Unsent(id)(r) {
      RewriteOne(r, Disowning(id));
    }
    RewriteTwice(rows, NotReceived(id), Disowning(id), Unsent(id));
    forall r | r in rows ensures Rewrite(Unsent(id)(r), Purging(true, 0)) == Leaving(id)(r) {
      LeavingShape(id, r);
      RewriteOne(Disowning(id)(r)[0], Purging(true, 0));
    }
    RewriteTwice(rows, Unsent(id), Purging(true, 0), Leaving(id));
  }

  lemma {:induction false} NoRowTouched(rows: seq<Row>, id: nat, u: nat)
    requires forall r :: r in rows && r.id == id ==> !Visible(r, u)
    ensures Rewrite(rows, Flagging(id, u)) == rows
  {
    if rows != [] {
      assert rows == [rows[0]] + rows[1..];
      NoRowTouched(rows[1..], id, u);
    }
  }

  class Database {
    var users: seq<User>
    var blocks: set<(nat, nat)>
    var rows: seq<Row>

    function Value(): Store
      reads this
    {
      Store(users, blocks, rows)
    }

    constructor ()
      ensures Value() == Store([], {}, [])
    {
      users, blocks, rows := [], {}, [];
    }

    method SendMessage(from: nat, to: nat, subject: string, body: string, replyTo: nat, now: int) returns (why: Outcome)
      modifies this
      ensures Result(Value(), why) == Send(old(Value()), from, to, subject, body, replyTo, now)
    {
      hide CleanLetter, FindUser, Select, FindSeen;
      var c := CleanLetter(subject, body);
      if !c.Letter? {
        return Invalid;
      }
      var sender, recipient := FindUser(users, from), FindUser(users, to);
      if sender.NoUser? || recipient.NoUser? {
        return NotFound;
      }
      if !sender.user.validated && !recipient.user.sysop {
        return NotValidated;
      }
      if !sender.user.sysop {
        if (to, from) in blocks {
          return Blocked;
        }
      }
      if |Inbox(Value(), to)| >= MAX_INBOX {
        return MailboxFull;
      }
      var thread, parent := 0, 0;
      if replyTo != 0 {
        match FindSeen(rows, replyTo, from) {
          case NoRow =>
          case Seen(p) => thread, parent := p.thread, replyTo;
        }
      }
      var id := NextRow(rows);
      var row := Row(id, from, to, thread, parent, c.subject, c.body, now, 0, false, false);
      if thread == 0 {
        row := row.(thread := id);
      }
      rows := rows + [row];
      return Done;
    }

    method DeleteMessage(id: nat, u: nat) returns (why: Outcome)
      requires NoneGone(rows)
      modifies this
      ensures Result(Value(), why) == Delete(old(Value()), id, u)
    {
      hide FindSeen, Rewrite;
      var hit := FindSeen(rows, id, u).Seen?;
      if !hit {
        NoRowTouched(rows, id, u);
      }
      DeleteInTwo(rows, id, u);
      rows := Rewrite(rows, Flagging(id, u));
      if !hit {
        return NotFound;
      }
      rows := Rewrite(rows, Purging(false, id));
      return Done;
    }

    method MarkMessageRead(id: nat, u: nat, now: int) returns (why: Outcome)
      modifies this
      ensures Result(Value(), why) == MarkRead(old(Value()), id, u, now)
    {
      if exists r :: r in rows && r.id == id && r.to == u && !r.goneTo {
        rows := Rewrite(rows, Reading(id, u, now));
        return Done;
      }
      return NotFound;
    }

    method RemoveUser(actor: nat, id: nat) returns (why: Outcome)
      modifies this
      ensures Result(Value(), why) == DeleteUser(old(Value()), actor, id)
    {
      hide FindUser, Rewrite, WithoutUser;
      if actor == id {
        return Forbidden;
      }
      var a := FindUser(users, actor);
      if a.NoUser? {
        return NotFound;
      }
      if !a.user.sysop {
        return Forbidden;
      }
      if FindUser(users, id).NoUser? {
        return NotFound;
      }
      RemoveInThree(rows, id);
      users := WithoutUser(users, id);
      blocks := set b | b in blocks && b.0 != id && b.1 != id;
      rows := Rewrite(rows, NotReceived(id));
      rows := Rewrite(rows, Disowning(id));
      rows := Rewrite(rows, Purging(true, 0));
      return Done;
    }

    method AddUser(handleKey: string, approve: bool) returns (why: Outcome)
      modifies this
      ensures Result(Value(), why) == CreateUser(old(Value()), handleKey, approve)
    {
      if exists u :: u in users && u.handleKey == handleKey {
        return HandleTaken;
      }
      var first := users == [];
      users := users + [User(NextUser(users), handleKey, first, first || !approve)];
      return Done;
    }
  }
}
