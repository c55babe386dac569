/**
 The private mail store: SendMessage, DeleteMessage, MarkRead and the queries of
 internal/store/messages.go, with CreateUser and DeleteUser of
 internal/store/users.go. A table is a sequence in id order; SQLite gives a new
 row the id after the greatest one there, so ids are used again.
 */
module Mail {
  import Text
  import opened Letters

  const MAX_INBOX := 500

  datatype User = User(id: nat, handleKey: string, sysop: bool, validated: bool)

  datatype Row = Row(id: nat, from: nat, to: nat, thread: nat, replyTo: nat, subject: string, body: string,
                     sentAt: int, readAt: int, goneFrom: bool, goneTo: bool)

  /** What a query returns of a row: everything but the deletion flags. */
  datatype Mail = Mail(id: nat, from: nat, to: nat, thread: nat, replyTo: nat, subject: string, body: string,
                       sentAt: int, readAt: int)

  datatype Store = Store(users: seq<User>, blocks: set<(nat, nat)>, rows: seq<Row>)

  datatype Outcome = Done | Invalid | NotFound | NotValidated | Blocked | MailboxFull | Forbidden | HandleTaken

  function View(r: Row): Mail { Mail(r.id, r.from, r.to, r.thread, r.replyTo, r.subject, r.body, r.sentAt, r.readAt) }

  // ---- tables ---------------------------------------------------------------------

  datatype MaybeUser = NoUser | Found(user: User)

  function FindUser(users: seq<User>, id: nat): (u: MaybeUser)
    ensures u.Found? ==> u.user in users && u.user.id == id
    ensures u.NoUser? ==> forall v :: v in users ==> v.id != id
  {
    if users == [] then NoUser else if users[0].id == id then Found(users[0]) else FindUser(users[1..], id)
  }

  predicate Exists(s: Store, id: nat) { FindUser(s.users, id).Found? }

  function NextUser(users: seq<User>): nat { if users == [] then 1 else users[|users| - 1].id + 1 }

  function NextRow(rows: seq<Row>): nat { if rows == [] then 1 else rows[|rows| - 1].id + 1 }

  /** An UPDATE or DELETE: each row becomes what f says, or nothing. */
  function Rewrite(rows: seq<Row>, f: Row -> seq<Row>): seq<Row> {
    if rows == [] then [] else f(rows[0]) + Rewrite(rows[1..], f)
  }

  /** SELECT ... WHERE p ORDER BY id. */
  function Select(rows: seq<Row>, p: Row -> bool): seq<Mail> {
    if rows == [] then [] else (if p(rows[0]) then [View(rows[0])] else []) + Select(rows[1..], p)
  }

  // ---- queries ----------------------------------------------------------------------

  predicate Visible(r: Row, u: nat) { (r.to == u && !r.goneTo) || (r.from == u && !r.goneFrom) }

  function InInbox(u: nat): Row -> bool { (r: Row) => r.to == u && !r.goneTo }

  function InOutbox(u: nat): Row -> bool { (r: Row) => r.from == u && !r.goneFrom }

  function InThread(t: nat, u: nat): Row -> bool { (r: Row) => r.thread == t && Visible(r, u) }

  function Inbox(s: Store, u: nat): seq<Mail> { Select(s.rows, InInbox(u)) }

  function Outbox(s: Store, u: nat): seq<Mail> { Select(s.rows, InOutbox(u)) }

  /** The row with this id that u can see. */
  datatype MaybeRow = NoRow | Seen(row: Row)

  function FindSeen(rows: seq<Row>, id: nat, u: nat): (r: MaybeRow)
    ensures r.Seen? ==> r.row in rows && r.row.id == id && Visible(r.row, u)
    ensures r.NoRow? ==> forall x :: x in rows && x.id == id ==> !Visible(x, u)
  {
    if rows == [] then NoRow
    else if rows[0].id == id && Visible(rows[0], u) then Seen(rows[0])
    else FindSeen(rows[1..], id, u)
  }

  datatype MaybeThread = NoThread | Thread(mails: seq<Mail>)

  function ThreadOf(s: Store, id: nat, u: nat): MaybeThread {
    match FindSeen(s.rows, id, u)
    case NoRow => NoThread
    case Seen(r) => Thread(Select(s.rows, InThread(r.thread, u)))
  }

  // ---- operations ---------------------------------------------------------------------

  datatype Result = Result(store: Store, outcome: Outcome)

  /** Why a letter is refused, or Done. */
  function Refusal(s: Store, from: nat, to: nat): Outcome {
    match (FindUser(s.users, from), FindUser(s.users, to))
    case (NoUser, _) => NotFound
    case (_, NoUser) => NotFound
    case (Found(sender), Found(recipient)) =>
      if !sender.validated && !recipient.sysop then NotValidated
      else if !sender.sysop && (to, from) in s.blocks then Blocked
      else if |Inbox(s, to)| >= MAX_INBOX then MailboxFull
      else Done
  }

  /** The thread a reply joins: only a row the sender can see is a parent. */
  function Parent(s: Store, from: nat, replyTo: nat): MaybeRow {
    if replyTo == 0 then NoRow else FindSeen(s.rows, replyTo, from)
  }

  function NewRow(s: Store, from: nat, to: nat, subject: string, body: string, replyTo: nat, now: int): Row {
    var id := NextRow(s.rows);
    match Parent(s, from, replyTo)
    case NoRow => Row(id, from, to, id, 0, subject, body, now, 0, false, false)
    case Seen(p) => Row(id, from, to, if p.thread == 0 then id else p.thread, replyTo, subject, body, now, 0, false, false)
  }

  function Send(s: Store, from: nat, to: nat, subject: string, body: string, replyTo: nat, now: int): Result {
    match CleanLetter(subject, body)
    case Letter(sub, bod) =>
      var why := Refusal(s, from, to);
      if why != Done then Result(s, why)
      else Result(s.(rows := s.rows + [NewRow(s, from, to, sub, bod, replyTo, now)]), Done)
    case _ => Result(s, Invalid)
  }

  function Reading(id: nat, u: nat, now: int): Row -> seq<Row> {
    (r: Row) => [if r.id == id && r.to == u && !r.goneTo && r.readAt == 0 then r.(readAt := now) else r]
  }

  function MarkRead(s: Store, id: nat, u: nat, now: int): Result {
    if exists r :: r in s.rows && r.id == id && r.to == u && !r.goneTo then
      Result(s.(rows := Rewrite(s.rows, Reading(id, u, now))), Done)
    else Result(s, NotFound)
  }

  /** One row as DeleteMessage leaves it: u's side goes, and the row with the
      second side. */
  function Deleting(id: nat, u: nat): Row -> seq<Row> {
    (r: Row) =>
      if r.id != id || !Visible(r, u) then [r]
      else
        var t := r.(goneFrom := r.goneFrom || r.from == u, goneTo := r.goneTo || r.to == u);
        if t.goneFrom && t.goneTo then [] else [t]
  }

  function Delete(s: Store, id: nat, u: nat): Result {
    if FindSeen(s.rows, id, u).NoRow? then Result(s, NotFound)
    else Result(s.(rows := Rewrite(s.rows, Deleting(id, u))), Done)
  }

  function Leaving(id: nat): Row -> seq<Row> {
    (r: Row) =>
      if r.to == id then []
      else
        var t := if r.from == id then r.(goneFrom := true) else r;
        if t.goneFrom && t.goneTo then [] else [t]
  }

  function WithoutUser(users: seq<User>, id: nat): seq<User> {
    if users == [] then [] else (if users[0].id == id then [] else [users[0]]) + WithoutUser(users[1..], id)
  }

  function DeleteUser(s: Store, actor: nat, id: nat): Result {
    if actor == id then Result(s, Forbidden)
    else match FindUser(s.users, actor)
      case NoUser => Result(s, NotFound)
      case Found(a) =>
        if !a.sysop then Result(s, Forbidden)
        else if !Exists(s, id) then Result(s, NotFound)
        else Result(Store(WithoutUser(s.users, id), (set b | b in s.blocks && b.0 != id && b.1 != id), Rewrite(s.rows, Leaving(id))), Done)
  }

  /** approve is Config.ApproveNewUsers; the very first user becomes the sysop. */
  function CreateUser(s: Store, handleKey: string, approve: bool): Result {
    if exists u :: u in s.users && u.handleKey == handleKey then Result(s, HandleTaken)
    else
      var first := s.users == [];
      Result(s.(users := s.users + [User(NextUser(s.users), handleKey, first, first || !approve)]), Done)
  }

  function Block(s: Store, u: nat, other: nat): Result {
    if u == other then Result(s, Invalid)
    else if !Exists(s, other) || !Exists(s, u) then Result(s, NotFound)
    else Result(s.(blocks := s.blocks + {(u, other)}), Done)
  }

  // ---- selecting from rewritten tables -------------------------------------------------------

  lemma {:induction false} SelectConcat(a: seq<Row>, b: seq<Row>, p: Row -> bool)
    ensures Select(a + b, p) == Select(a, p) + Select(b, p)
  {
    if a == [] {
      assert a + b == b;
    } else {
      assert (a + b)[1..] == a[1..] + b;
      SelectConcat(a[1..], b, p);
      Text.Assoc(if p(a[0]) then [View(a[0])] else [], Select(a[1..], p), Select(b, p));
    }
  }

  lemma SelectOne(r: Row, p: Row -> bool)
    ensures Select([r], p) == if p(r) then [View(r)] else []
  {
    assert [r][1..] == [];
  }

  /** If every row shows p afterwards what it showed q before, so does the table. */
  lemma {:induction false} SelectRewritten(rows: seq<Row>, f: Row -> seq<Row>, p: Row -> bool, q: Row -> bool)
    requires forall r :: r in rows ==> Select(f(r), p) == Select([r], q)
    ensures Select(Rewrite(rows, f), p) == Select(rows, q)
  {
    if rows != [] {
      assert rows == [rows[0]] + rows[1..];
      SelectRewritten(rows[1..], f, p, q);
      SelectConcat(f(rows[0]), Rewrite(rows[1..], f), p);
      SelectConcat([rows[0]], rows[1..], q);
    }
  }

  lemma {:induction false} SelectSame(rows: seq<Row>, p: Row -> bool, q: Row -> bool)
    requires forall r :: r in rows ==> (p(r) <==> q(r))
    ensures Select(rows, p) == Select(rows, q)
  {
    if rows != [] {
      SelectSame(rows[1..], p, q);
    }
  }

  lemma {:induction false} SelectNone(rows: seq<Row>, p: Row -> bool)
    requires forall r :: r in rows ==> !p(r)
    ensures Select(rows, p) == []
  {
    if rows != [] {
      SelectNone(rows[1..], p);
    }
  }

  /** At most one row for a row, with the same id. */
  ghost predicate KeepsId(f: Row -> seq<Row>) { forall r :: |f(r)| <= 1 && (f(r) != [] ==> f(r)[0].id == r.id) }

  ghost predicate RowsOrdered(rows: seq<Row>) { forall i, j :: 0 <= i < j < |rows| ==> rows[i].id < rows[j].id }

  /** Every row afterwards was made from a row before. */
  lemma {:induction false} RewriteOrigin(rows: seq<Row>, f: Row -> seq<Row>, t: Row) returns (r: Row)
    requires t in Rewrite(rows, f)
    ensures r in rows && t in f(r)
  {
    if t in f(rows[0]) {
      r := rows[0];
    } else {
      r := RewriteOrigin(rows[1..], f, t);
    }
  }

  lemma {:induction false} RewriteMember(rows: seq<Row>, f: Row -> seq<Row>, r: Row, t: Row)
    requires r in rows && t in f(r)
    ensures t in Rewrite(rows, f)
  {
    if r != rows[0] {
      assert rows == [rows[0]] + rows[1..];
      RewriteMember(rows[1..], f, r, t);
    }
  }

  lemma {:induction false} RewriteOrdered(rows: seq<Row>, f: Row -> seq<Row>)
    requires RowsOrdered(rows) && KeepsId(f)
    ensures RowsOrdered(Rewrite(rows, f))
  {
    if rows != [] {
      RewriteOrdered(rows[1..], f);
      var rest := Rewrite(rows[1..], f);
      assert |f(rows[0])| <= 1;
      if f(rows[0]) != [] {
        forall t | t in rest ensures rows[0].id < t.id {
          var r := RewriteOrigin(rows[1..], f, t);
          assert f(r)[0].id == r.id;
        }
        Text.Prepended(f(rows[0])[0], rest, (a: Row, b: Row) => a.id < b.id);
        assert f(rows[0]) == [f(rows[0])[0]];
      } else {
        assert [] + rest == rest;
      }
    }
  }

  lemma UniqueId(rows: seq<Row>, a: Row, b: Row)
    requires RowsOrdered(rows) && a in rows && b in rows && a.id == b.id
    ensures a == b
  {
  }

  lemma RewritesKeepIds(id: nat, u: nat, now: int)
    ensures KeepsId(Reading(id, u, now)) && KeepsId(Deleting(id, u)) && KeepsId(Leaving(id))
  {
  }
}
