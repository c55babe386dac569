/**
 Tosser.Toss of internal/ftntoss/toss.go as a machine that may be killed between
 any two steps and started again: the database and the directories survive, the
 place in the loop does not.
 */
module Tossing {
  import opened Text
  import opened Addresses
  import opened Messages
  import opened FtnStore

  /** One packet of a bundle; a lone .pkt is a bundle of one. */
  datatype Part = Unreadable | Readable(msgs: seq<Message>)

  /** A file's content, which its SHA-256 stands for. */
  datatype File = File(parts: seq<Part>)

  datatype Entry = Entry(name: string, file: File)

  /** Own addresses, and whether inbound is the password-protected one. */
  datatype Config = Config(own: seq<Addr>, secure: bool)

  function MessagesOf(parts: seq<Part>): seq<Message> {
    if parts == [] then [] else (if parts[0].Readable? then parts[0].msgs else []) + MessagesOf(parts[1..])
  }

  /** EachMessage fails when some part is unreadable and none could be read. */
  predicate Fails(f: File) {
    Unreadable in f.parts && forall p :: p in f.parts ==> p.Unreadable?
  }

  predicate IsOwn(c: Config, a: Addr) { exists x :: x in c.own && Same(x, a) }

  /** What Toss does with one message. */
  function Handle(c: Config, db: Db, m: Message): Import {
    if m.area == "" && IsOwn(c, m.dest) then ImportNetmail(db, m)
    else if m.area != "" && c.secure then ImportEcho(db, m)
    else Import(db, Skipped)
  }

  function ImportAll(c: Config, db: Db, ms: seq<Message>): Db {
    if ms == [] then db else Handle(c, ImportAll(c, db, ms[..|ms| - 1]), ms[|ms| - 1]).db
  }

  // ---- the undisturbed run -----------------------------------------------------------

  /** What survives a crash, apart from inbound. */
  datatype Spool = Spool(db: Db, ledger: set<File>, done: seq<Entry>, bad: seq<Entry>)

  function TossOne(c: Config, z: Spool, e: Entry): Spool {
    if e.file in z.ledger then z.(done := z.done + [e])
    else if Fails(e.file) then z.(bad := z.bad + [e])
    else z.(db := ImportAll(c, z.db, MessagesOf(e.file.parts)), ledger := z.ledger + {e.file}, done := z.done + [e])
  }

  function TossAll(c: Config, z: Spool, es: seq<Entry>): Spool {
    if es == [] then z else TossOne(c, TossAll(c, z, es[..|es| - 1]), es[|es| - 1])
  }

  // ---- the machine ---------------------------------------------------------------------

  datatype Pc =
    | Stopped
    | Between(todo: seq<string>)
    | Importing(name: string, todo: seq<string>, k: nat, results: seq<TossResult>)
    | Moving(name: string, todo: seq<string>, toBad: bool)

  /** A file that was marked as tossed, with what became of each message. */
  datatype Logged = Logged(file: File, results: seq<TossResult>)

  datatype State = State(z: Spool, inbound: seq<Entry>, pc: Pc, log: seq<Logged>)

  datatype Event = Start | Go | Crash | DbError | Arrive(e: Entry, at: nat)

  function Names(es: seq<Entry>): (n: seq<string>)
    ensures |n| == |es| && forall i :: 0 <= i < |es| ==> n[i] == es[i].name
  {
    seq(|es|, i requires 0 <= i < |es| => es[i].name)
  }

  datatype MaybeEntry = NoEntry | Found(e: Entry)

  function Find(es: seq<Entry>, name: string): (r: MaybeEntry)
    ensures r.Found? ==> r.e in es && r.e.name == name
    ensures r.NoEntry? ==> forall e :: e in es ==> e.name != name
  {
    if es == [] then NoEntry else if es[0].name == name then Found(es[0]) else Find(es[1..], name)
  }

  function Drop(es: seq<Entry>, name: string): seq<Entry> {
    if es == [] then [] else if es[0].name == name then es[1..] else [es[0]] + Drop(es[1..], name)
  }

  function GoBetween(s: State, todo: seq<string>): State {
    if todo == [] then s.(pc := Stopped)
    else match Find(s.inbound, todo[0])
      case NoEntry => s.(pc := Stopped)
      case Found(e) =>
        if e.file in s.z.ledger then s.(pc := Moving(e.name, todo[1..], false))
        else if Fails(e.file) then s.(pc := Moving(e.name, todo[1..], true))
        else s.(pc := Importing(e.name, todo[1..], 0, []))
  }

  function GoImporting(c: Config, s: State, name: string, todo: seq<string>, k: nat, results: seq<TossResult>): State {
    match Find(s.inbound, name)
    case NoEntry => s.(pc := Stopped)
    case Found(e) =>
      var ms := MessagesOf(e.file.parts);
      if k < |ms| then
        var i := Handle(c, s.z.db, ms[k]);
        s.(z := s.z.(db := i.db), pc := Importing(name, todo, k + 1, results + [i.result]))
      else
        s.(z := s.z.(ledger := s.z.ledger + {e.file}), log := s.log + [Logged(e.file, results)], pc := Moving(name, todo, false))
  }

  /** moveAside, to a name that is free. */
  function GoMoving(s: State, name: string, todo: seq<string>, toBad: bool): State {
    match Find(s.inbound, name)
    case NoEntry => s.(pc := Stopped)
    case Found(e) =>
      State(if toBad then s.z.(bad := s.z.bad + [e]) else s.z.(done := s.z.done + [e]), Drop(s.inbound, name), Between(todo), s.log)
  }

  /** A database error while messages are stored sets the file aside; anywhere
      else it ends the run. */
  function OnDbError(s: State): State {
    match s.pc
    case Importing(name, todo, k, results) =>
      (match Find(s.inbound, name)
       case NoEntry => s.(pc := Stopped)
       case Found(e) => if k < |MessagesOf(e.file.parts)| then s.(pc := Moving(name, todo, true)) else s.(pc := Stopped))
    case Moving(_, _, _) => s
    case _ => s.(pc := Stopped)
  }

  function Step(c: Config, s: State, ev: Event): State {
    match ev
    case Start => if s.pc.Stopped? then s.(pc := Between(Names(s.inbound))) else s
    case Crash => s.(pc := Stopped)
    case DbError => OnDbError(s)
    case Arrive(e, at) =>
      if at <= |s.inbound| && Find(s.inbound, e.name).NoEntry? then s.(inbound := s.inbound[..at] + [e] + s.inbound[at..]) else s
    case Go =>
      (match s.pc
       case Stopped => s
       case Between(todo) => GoBetween(s, todo)
       case Importing(name, todo, k, results) => GoImporting(c, s, name, todo, k, results)
       case Moving(name, todo, toBad) => GoMoving(s, name, todo, toBad))
  }

  function Run(c: Config, s: State, evs: seq<Event>): State {
    if evs == [] then s else Step(c, Run(c, s, evs[..|evs| - 1]), evs[|evs| - 1])
  }

  // ---- nothing is lost ----------------------------------------------------------------------

  ghost predicate Distinct(es: seq<Entry>) { forall i, j :: 0 <= i < j < |es| ==> es[i].name != es[j].name }

  /** The files inside the spool, wherever they are. */
  ghost function Everywhere(s: State): multiset<Entry> {
    multiset(s.inbound) + multiset(s.z.done) + multiset(s.z.bad)
  }

  lemma {:induction false} DropTakes(es: seq<Entry>, name: string)
    requires Distinct(es) && Find(es, name).Found?
    ensures multiset(Drop(es, name)) + multiset{Find(es, name).e} == multiset(es)
    ensures Distinct(Drop(es, name)) && forall e :: e in Drop(es, name) ==> e in es
  {
    hide Distinct;
    assert es == [es[0]] + es[1..];
    if es[0].name == name {
      DistinctRest(es);
    } else {
      DistinctRest(es);
      DropTakes(es[1..], name);
      DistinctFirst(es[0], Drop(es[1..], name), es[1..]);
    }
  }

  lemma DistinctRest(es: seq<Entry>)
    requires Distinct(es) && es != []
    ensures Distinct(es[1..]) && forall e :: e in es[1..] ==> e in es && e.name != es[0].name
  {
  }

  lemma DistinctFirst(e: Entry, rest: seq<Entry>, all: seq<Entry>)
    requires Distinct(rest) && (forall x :: x in rest ==> x in all) && forall x :: x in all ==> x.name != e.name
    ensures Distinct([e] + rest)
  {
    Prepended(e, rest, (a: Entry, b: Entry) => a.name != b.name);
  }

  /** Every message of a marked file went through one pass of the loop; file and
      ledger are never marked any other way. */
  ghost predicate MarkedWhole(s: State, first: set<File>) {
    && (forall f :: f in s.z.ledger ==> f in first || InLog(s, f))
    && (forall l :: l in s.log ==> |l.results| == |MessagesOf(l.file.parts)|)
  }

  ghost predicate InLog(s: State, f: File) { exists l :: l in s.log && l.file == f }

  ghost predicate OnPass(s: State) {
    s.pc.Importing? ==>
      && Find(s.inbound, s.pc.name).Found?
      && |s.pc.results| == s.pc.k <= |MessagesOf(Find(s.inbound, s.pc.name).e.file.parts)|
  }

  ghost predicate SafeInv(s: State, first: set<File>) { Distinct(s.inbound) && MarkedWhole(s, first) && OnPass(s) }

  lemma MoveSafe(s: State, first: set<File>, name: string, todo: seq<string>, toBad: bool)
    requires SafeInv(s, first)
    ensures SafeInv(GoMoving(s, name, todo, toBad), first)
    ensures Everywhere(GoMoving(s, name, todo, toBad)) == Everywhere(s)
  {
    hide Drop, Find, MessagesOf;
    if Find(s.inbound, name).Found? {
      DropTakes(s.inbound, name);
      SameLog(s, GoMoving(s, name, todo, toBad), first);
    }
  }

  lemma SameLog(s: State, t: State, first: set<File>)
    requires MarkedWhole(s, first) && t.z.ledger == s.z.ledger && t.log == s.log
    ensures MarkedWhole(t, first)
  {
    hide MessagesOf;
    forall f | f in t.z.ledger ensures f in first || InLog(t, f) {
      assert f in first || InLog(s, f);
    }
  }

  lemma ImportSafe(c: Config, s: State, first: set<File>)
    requires SafeInv(s, first) && s.pc.Importing?
    ensures var t := GoImporting(c, s, s.pc.name, s.pc.todo, s.pc.k, s.pc.results);
            SafeInv(t, first) && Everywhere(t) == Everywhere(s)
  {
    hide Find, MessagesOf, Handle;
    var t := GoImporting(c, s, s.pc.name, s.pc.todo, s.pc.k, s.pc.results);
    if t.log == s.log {
      SameLog(s, t, first);
    } else {
      var l := t.log[|t.log| - 1];
      assert t.log == s.log + [l];
      forall f | f in t.z.ledger ensures f in first || InLog(t, f) {
        if f in s.z.ledger {
          assert f in first || InLog(s, f);
        } else {
          assert l in t.log;
        }
      }
    }
  }

  lemma InsertDistinct(es: seq<Entry>, at: nat, e: Entry)
    requires Distinct(es) && at <= |es| && forall x :: x in es ==> x.name != e.name
    ensures Distinct(es[..at] + [e] + es[at..])
  {
    var t := es[..at] + [e] + es[at..];
    forall i, j | 0 <= i < j < |t| ensures t[i].name != t[j].name {
      assert t[i] == if i < at then es[i] else if i == at then e else es[i - 1];
      assert t[j] == if j < at then es[j] else if j == at then e else es[j - 1];
    }
  }

  lemma ArriveSafe(s: State, first: set<File>, e: Entry, at: nat)
    requires SafeInv(s, first) && at <= |s.inbound| && Find(s.inbound, e.name).NoEntry?
    ensures var t := s.(inbound := s.inbound[..at] + [e] + s.inbound[at..]);
            SafeInv(t, first) && Everywhere(t) == Everywhere(s) + multiset{e}
  {
    hide Find, MessagesOf, Distinct, MarkedWhole;
    var t := s.(inbound := s.inbound[..at] + [e] + s.inbound[at..]);
    assert s.inbound == s.inbound[..at] + s.inbound[at..];
    SameLog(s, t, first);
    InsertDistinct(s.inbound, at, e);
    if t.pc.Importing? {
      FindBeside(s.inbound, at, e, t.pc.name);
    }
  }

  /** A new file under its own name does not change what another name finds. */
  lemma {:induction false} FindBeside(es: seq<Entry>, at: nat, e: Entry, name: string)
    requires at <= |es|
    ensures e.name != name ==> Find(es[..at] + [e] + es[at..], name) == Find(es, name)
  {
    if at == 0 {
      assert es[..at] + [e] + es[at..] == [e] + es;
      assert ([e] + es)[1..] == es;
    } else {
      var all := es[..at] + [e] + es[at..];
      assert all[0] == es[0] && all[1..] == es[1..][..at - 1] + [e] + es[1..][at - 1..];
      FindBeside(es[1..], at - 1, e, name);
    }
  }

  lemma BetweenSafe(s: State, first: set<File>, todo: seq<string>)
    requires SafeInv(s, first)
    ensures SafeInv(GoBetween(s, todo), first) && Everywhere(GoBetween(s, todo)) == Everywhere(s)
  {
    hide Find, MessagesOf, Fails, Distinct, MarkedWhole;
    SameLog(s, GoBetween(s, todo), first);
  }

  ghost function Arrived(s: State, ev: Event): multiset<Entry> {
    if ev.Arrive? && ev.at <= |s.inbound| && Find(s.inbound, ev.e.name).NoEntry? then multiset{ev.e} else multiset{}
  }

  lemma StepSafe(c: Config, s: State, ev: Event, first: set<File>)
    requires SafeInv(s, first)
    ensures SafeInv(Step(c, s, ev), first) && Everywhere(Step(c, s, ev)) == Everywhere(s) + Arrived(s, ev)
  {
    hide Find, MessagesOf, SafeInv, Everywhere, GoBetween, GoImporting, GoMoving, Names, OnDbError;
    NothingCame(s);
    match ev
    case Arrive(e, at) =>
      if at <= |s.inbound| && Find(s.inbound, e.name).NoEntry? { ArriveSafe(s, first, e, at); }
    case Go =>
      if s.pc.Between? {
        BetweenSafe(s, first, s.pc.todo);
      } else if s.pc.Importing? {
        ImportSafe(c, s, first);
      } else if s.pc.Moving? {
        MoveSafe(s, first, s.pc.name, s.pc.todo, s.pc.toBad);
      }
    case _ => QuietSafe(c, s, ev, first);
  }

  lemma NothingCame(s: State)
    ensures Everywhere(s) + multiset{} == Everywhere(s)
  {
  }

  /** Starting, dying and a database error move no file and mark none. */
  lemma QuietSafe(c: Config, s: State, ev: Event, first: set<File>)
    requires SafeInv(s, first) && (ev.Start? || ev.Crash? || ev.DbError?)
    ensures SafeInv(Step(c, s, ev), first) && Everywhere(Step(c, s, ev)) == Everywhere(s)
  {
    hide Find, MessagesOf, Distinct, MarkedWhole, Names;
    SameLog(s, Step(c, s, ev), first);
  }

  /** The files that came in during a run. */
  ghost function AllArrived(c: Config, s: State, evs: seq<Event>): multiset<Entry> {
    if evs == [] then multiset{}
    else AllArrived(c, s, evs[..|evs| - 1]) + Arrived(Run(c, s, evs[..|evs| - 1]), evs[|evs| - 1])
  }

  lemma {:induction false} RunSafe(c: Config, s: State, evs: seq<Event>)
    requires s.pc.Stopped? && s.log == [] && Distinct(s.inbound)
    ensures var t := Run(c, s, evs);
            && Everywhere(t) == Everywhere(s) + AllArrived(c, s, evs)
            && SafeInv(t, s.z.ledger)
    decreases |evs|
  {
    hide Distinct, Step, Everywhere, Arrived;
    if evs == [] {
      assert Everywhere(s) == Everywhere(s) + multiset{};
    } else {
      RunSafe(c, s, evs[..|evs| - 1]);
      StepSafe(c, Run(c, s, evs[..|evs| - 1]), evs[|evs| - 1], s.z.ledger);
    }
  }

  // ---- what a result means ------------------------------------------------------------------

  /** Whether a message is for this node to take. */
  predicate Takes(c: Config, m: Message) {
    if m.area == "" then IsOwn(c, m.dest) else c.secure && IsTag(EchoTag(m))
  }

  predicate HasMessage(db: Db, m: Message) {
    if m.area == "" then HasNetmail(db.netmail, KeyOf(m)) else HasEcho(db.echo, KeyOf(m))
  }

  lemma NewestRowStays(rows: seq<EchoRow>, row: EchoRow)
    ensures row in PruneArea(rows + [row], row.area)
  {
    hide InArea, DropOldest;
    var all := rows + [row];
    var n := |InArea(all, row.area)|;
    InAreaConcat(rows, [row], row.area);
    InAreaOne(row, row.area);
    if n > MAX_ECHO {
      DropOldestTakes(all, row.area, n - MAX_ECHO, row.area);
      var kept := DropOldest(all, row.area, n - MAX_ECHO);
      assert InArea(kept, row.area)[MAX_ECHO - 1] == row;
      InAreaMember(kept, row.area, row);
    }
  }

  lemma {:induction false} InAreaMember(rows: seq<EchoRow>, area: nat, row: EchoRow)
    requires row in InArea(rows, area)
    ensures row in rows
  {
    if row in InArea(rows[1..], area) {
      InAreaMember(rows[1..], area, row);
    }
  }

  lemma EchoMeans(db: Db, m: Message)
    requires m.area != "" && IsTag(EchoTag(m))
    ensures var t := ImportEcho(db, m);
            if HasEcho(db.echo, KeyOf(m)) then t == Import(db, Duplicate)
            else t.result == Stored && HasEcho(t.db.echo, KeyOf(m))
  {
    hide IsTag, KeyOf, WithArea, PruneArea, AreaId, OrElse, FitBytes, String;
    var row := NewEcho(db, m);
    NewestRowStays(db.echo, row);
  }

  lemma NetmailMeans(db: Db, m: Message)
    requires m.area == ""
    ensures var t := ImportNetmail(db, m);
            if HasNetmail(db.netmail, KeyOf(m)) then t == Import(db, Duplicate)
            else t.result == Stored && HasNetmail(t.db.netmail, KeyOf(m))
  {
    hide KeyOf, OrElse, FitBytes, String;
    var all := db.netmail + [NewNetmail(db, m)];
    assert Newest(all, MAX_NETMAIL)[|Newest(all, MAX_NETMAIL)| - 1] == NewNetmail(db, m);
  }

  /** A result says where the message is: skipped when it is not for this node, a
      duplicate when it was there already, stored when it was not and is now. */
  lemma ResultMeans(c: Config, db: Db, m: Message)
    ensures var t := Handle(c, db, m);
            && (t.result == Skipped <==> !Takes(c, m))
            && (t.result == Duplicate <==> Takes(c, m) && HasMessage(db, m))
            && (t.result != Stored ==> t.db == db)
            && (t.result != Skipped ==> HasMessage(t.db, m))
  {
    hide IsOwn, IsTag, KeyOf, HasEcho, HasNetmail, PruneArea, WithArea, Newest, NewEcho, NewNetmail;
    if Takes(c, m) {
      if m.area == "" {
        NetmailMeans(db, m);
      } else {
        EchoMeans(db, m);
      }
    }
  }

  // ---- every message of a marked file was handled ------------------------------------------------

  /** The program is at message k of the file. */
  ghost predicate AtMessage(v: State, f: File, k: nat) {
    && v.pc.Importing? && v.pc.k == k < |MessagesOf(f.parts)|
    && Find(v.inbound, v.pc.name).Found? && Find(v.inbound, v.pc.name).e.file == f
  }

  /** Step i of the run handled message k of the file: it left the database and gave
      the result that Handle says. */
  ghost predicate HandledAt(c: Config, s: State, evs: seq<Event>, i: nat, f: File, k: nat, r: TossResult) {
    && i < |evs| && AtMessage(Run(c, s, evs[..i]), f, k)
    && Handle(c, Run(c, s, evs[..i]).z.db, MessagesOf(f.parts)[k]) == Import(Run(c, s, evs[..i + 1]).z.db, r)
  }

  ghost predicate HandledIn(c: Config, s: State, evs: seq<Event>, f: File, k: nat, r: TossResult) {
    exists i: nat :: HandledAt(c, s, evs, i, f, k, r)
  }

  /** These are the results the run had with the first messages of the file. */
  ghost predicate Recorded(c: Config, s: State, evs: seq<Event>, f: File, results: seq<TossResult>) {
    |results| <= |MessagesOf(f.parts)| && forall k :: 0 <= k < |results| ==> HandledIn(c, s, evs, f, k, results[k])
  }

  ghost predicate WholeRecord(c: Config, s: State, evs: seq<Event>, f: File, results: seq<TossResult>) {
    |results| == |MessagesOf(f.parts)| && Recorded(c, s, evs, f, results)
  }

  ghost predicate Records(c: Config, s: State, evs: seq<Event>, t: State) {
    && (forall l :: l in t.log ==> WholeRecord(c, s, evs, l.file, l.results))
    && (t.pc.Importing? ==> OnPass(t) && Recorded(c, s, evs, Find(t.inbound, t.pc.name).e.file, t.pc.results))
  }

  lemma RecordedLater(c: Config, s: State, evs: seq<Event>, f: File, results: seq<TossResult>)
    requires evs != [] && Recorded(c, s, evs[..|evs| - 1], f, results)
    ensures Recorded(c, s, evs, f, results)
  {
    hide Run, Handle;
    var before := evs[..|evs| - 1];
    forall k | 0 <= k < |results| ensures HandledIn(c, s, evs, f, k, results[k]) {
      assert HandledIn(c, s, before, f, k, results[k]);
      var i: nat :| HandledAt(c, s, before, i, f, k, results[k]);
      assert before[..i] == evs[..i] && before[..i + 1] == evs[..i + 1];
      assert HandledAt(c, s, evs, i, f, k, results[k]);
    }
  }

  lemma LogLater(c: Config, s: State, evs: seq<Event>, log: seq<Logged>)
    requires evs != [] && forall l :: l in log ==> WholeRecord(c, s, evs[..|evs| - 1], l.file, l.results)
    ensures forall l :: l in log ==> WholeRecord(c, s, evs, l.file, l.results)
  {
    hide Recorded, MessagesOf;
    forall l | l in log ensures WholeRecord(c, s, evs, l.file, l.results) {
      RecordedLater(c, s, evs, l.file, l.results);
    }
  }

  lemma ImportRecorded(c: Config, s: State, evs: seq<Event>, u: State)
    requires evs != [] && evs[|evs| - 1] == Go && u == Run(c, s, evs[..|evs| - 1]) && u.pc.Importing?
    requires OnPass(u) && Records(c, s, evs[..|evs| - 1], u)
    ensures Records(c, s, evs, Run(c, s, evs))
  {
    hide Handle, MessagesOf, Find, HandledIn;
    var n := |evs|;
    var t := Run(c, s, evs);
    var e := Find(u.inbound, u.pc.name).e;
    var ms := MessagesOf(e.file.parts);
    var k := u.pc.k;
    LogLater(c, s, evs, u.log);
    RecordedLater(c, s, evs, e.file, u.pc.results);
    if k < |ms| {
      assert evs[..n] == evs;
      assert HandledAt(c, s, evs, n - 1, e.file, k, Handle(c, u.z.db, ms[k]).result);
      assert HandledIn(c, s, evs, e.file, k, Handle(c, u.z.db, ms[k]).result) by {
        HandledNow(c, s, evs, n - 1, e.file, k, Handle(c, u.z.db, ms[k]).result);
      }
    }
  }

  lemma HandledNow(c: Config, s: State, evs: seq<Event>, i: nat, f: File, k: nat, r: TossResult)
    requires HandledAt(c, s, evs, i, f, k, r)
    ensures HandledIn(c, s, evs, f, k, r)
  {
    hide HandledAt;
  }

  /** Every other step leaves the record of the pass it is in, or begins a new one. */
  lemma OtherRecorded(c: Config, s: State, evs: seq<Event>, u: State)
    requires evs != [] && u == Run(c, s, evs[..|evs| - 1]) && !(evs[|evs| - 1].Go? && u.pc.Importing?)
    requires SafeInv(u, s.z.ledger) && SafeInv(Run(c, s, evs), s.z.ledger) && Records(c, s, evs[..|evs| - 1], u)
    ensures Records(c, s, evs, Run(c, s, evs))
  {
    hide Handle, MessagesOf, Find, HandledIn, Distinct, MarkedWhole, Recorded, WholeRecord, Fails;
    var ev := evs[|evs| - 1];
    var t := Run(c, s, evs);
    LogLater(c, s, evs, u.log);
    assert t.log == u.log;
    if t.pc.Importing? {
      if u.pc.Importing? {
        RecordedLater(c, s, evs, Find(u.inbound, u.pc.name).e.file, u.pc.results);
        if t.inbound != u.inbound {
          FindBeside(u.inbound, ev.at, ev.e, u.pc.name);
        }
      } else {
        NothingRecorded(c, s, evs, Find(t.inbound, t.pc.name).e.file);
      }
    }
  }

  lemma NothingRecorded(c: Config, s: State, evs: seq<Event>, f: File)
    ensures Recorded(c, s, evs, f, [])
  {
    hide HandledIn;
  }

  lemma {:induction false} RunRecords(c: Config, s: State, evs: seq<Event>)
    requires s.pc.Stopped? && s.log == [] && Distinct(s.inbound)
    ensures Records(c, s, evs, Run(c, s, evs))
    decreases |evs|
  {
    hide Distinct, Step, Everywhere, Arrived, Records, MarkedWhole, AllArrived;
    if evs == [] {
      assert Records(c, s, evs, s) by { EmptyRecord(c, s); }
    } else {
      var before := evs[..|evs| - 1];
      RunSafe(c, s, before);
      RunSafe(c, s, evs);
      RunRecords(c, s, before);
      var u := Run(c, s, before);
      if evs[|evs| - 1].Go? && u.pc.Importing? {
        ImportRecorded(c, s, evs, u);
      } else {
        OtherRecorded(c, s, evs, u);
      }
    }
  }

  lemma EmptyRecord(c: Config, s: State)
    requires s.pc.Stopped? && s.log == []
    ensures Records(c, s, [], s)
  {
  }

  ghost predicate AllHandled(c: Config, s: State, evs: seq<Event>, f: File) {
    exists results: seq<TossResult> :: WholeRecord(c, s, evs, f, results)
  }

  /** Whatever crashes, database errors and new files interrupt it, a file is in
      exactly one of inbound, tossed and bad, and every file the run marked as tossed
      had each of its messages handled by a step of the run: a step whose database
      Handle turned into the next. ResultMeans says where that leaves the message. */
  lemma NoFileIsLost(c: Config, s: State, evs: seq<Event>)
    requires s.pc.Stopped? && s.log == [] && Distinct(s.inbound)
    ensures var t := Run(c, s, evs);
            && Everywhere(t) == Everywhere(s) + AllArrived(c, s, evs)
            && forall f :: f in t.z.ledger && f !in s.z.ledger ==> AllHandled(c, s, evs, f)
  {
    hide Run, WholeRecord, MessagesOf, Distinct, Everywhere, AllArrived, Recorded;
    RunSafe(c, s, evs);
    RunRecords(c, s, evs);
    var t := Run(c, s, evs);
    forall f | f in t.z.ledger && f !in s.z.ledger ensures AllHandled(c, s, evs, f) {
      assert InLog(t, f);
      var l :| l in t.log && l.file == f;
      assert WholeRecord(c, s, evs, l.file, l.results);
    }
  }

  lemma HandleKeepsDb(c: Config, db: Db, m: Message)
    requires DbInv(db)
    ensures DbInv(Handle(c, db, m).db)
  {
    hide DbInv, ImportEcho, ImportNetmail, IsOwn;
    EchoInv(db, m);
    NetmailInv(db, m);
  }

  /** Over every schedule the database stays sound: MSGIDs and tags unique, ids
      increasing, every row in an area, no area or box over its limit. */
  lemma {:induction false} RunKeepsDb(c: Config, s: State, evs: seq<Event>)
    requires DbInv(s.z.db)
    ensures DbInv(Run(c, s, evs).z.db)
    decreases |evs|
  {
    hide DbInv, Handle, Find, MessagesOf, Names, Fails;
    if evs != [] {
      RunKeepsDb(c, s, evs[..|evs| - 1]);
      var u := Run(c, s, evs[..|evs| - 1]);
      if evs[|evs| - 1].Go? && u.pc.Importing? && Find(u.inbound, u.pc.name).Found? {
        var ms := MessagesOf(Find(u.inbound, u.pc.name).e.file.parts);
        if u.pc.k < |ms| {
          HandleKeepsDb(c, u.z.db, ms[u.pc.k]);
        }
      }
    }
  }
}
