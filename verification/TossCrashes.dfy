/**
 A tosser that is killed and started again, any number of times and anywhere, leaves
 the same database, ledger and directories as one run that nobody disturbs, as long
 as importing a file prunes none of the file's own messages. That is exactly when a
 rerun stores nothing a second time.
 */
module TossCrashes {
  import opened Text
  import opened Addresses
  import opened Messages
  import opened FtnStore
  import opened Tossing

  // ---- importing the same messages again --------------------------------------------------

  predicate HandleFits(c: Config, db: Db, m: Message) {
    && (m.area == "" && IsOwn(c, m.dest) ==> NetmailFits(db, m))
    && (m.area != "" && c.secure ==> EchoFits(db, m))
  }

  /** Rows are only added at the end. */
  predicate Grows(a: Db, b: Db) { a.echo <= b.echo && a.netmail <= b.netmail }

  predicate Settled(c: Config, db: Db, m: Message) { Handle(c, db, m).result != Stored }

  lemma SettledStays(c: Config, a: Db, b: Db, m: Message)
    requires Settled(c, a, m) && Grows(a, b)
    ensures Settled(c, b, m) && Handle(c, b, m).db == b
  {
    hide KeyOf, NewEcho, NewNetmail, IsTag, EchoTag, PruneArea, WithArea, Newest, IsOwn;
    if HasEcho(a.echo, KeyOf(m)) {
      var r :| r in a.echo && r.key == KeyOf(m);
      assert r in b.echo;
    }
    if HasNetmail(a.netmail, KeyOf(m)) {
      var r :| r in a.netmail && r.key == KeyOf(m);
      assert r in b.netmail;
    }
  }

  lemma NetmailSettles(db: Db, m: Message)
    requires NetmailFits(db, m)
    ensures Grows(db, ImportNetmail(db, m).db)
    ensures ImportNetmail(db, m).result == Stored ==> HasNetmail(ImportNetmail(db, m).db.netmail, KeyOf(m))
  {
    hide KeyOf, HasNetmail, ImportNetmail;
    NetmailAdds(db, m);
    var t := ImportNetmail(db, m);
    if t.result == Stored {
      Newcomer(db, m);
    }
  }

  lemma Newcomer(db: Db, m: Message)
    ensures HasNetmail(db.netmail + [NewNetmail(db, m)], KeyOf(m))
    ensures HasEcho(db.echo + [NewEcho(db, m)], KeyOf(m))
  {
    hide KeyOf, WithArea, String, AreaId, OrElse, FitBytes;
    assert NewNetmail(db, m) in db.netmail + [NewNetmail(db, m)];
    assert NewEcho(db, m) in db.echo + [NewEcho(db, m)];
  }

  lemma EchoSettles(db: Db, m: Message)
    requires EchoFits(db, m)
    ensures Grows(db, ImportEcho(db, m).db)
    ensures ImportEcho(db, m).result == Stored ==> HasEcho(ImportEcho(db, m).db.echo, KeyOf(m))
  {
    hide KeyOf, HasEcho, ImportEcho;
    EchoAdds(db, m);
    var t := ImportEcho(db, m);
    if t.result == Stored {
      Newcomer(db, m);
    }
  }

  lemma HandleSettles(c: Config, db: Db, m: Message)
    requires HandleFits(c, db, m)
    ensures Settled(c, Handle(c, db, m).db, m) && Grows(db, Handle(c, db, m).db)
  {
    hide KeyOf, HasEcho, HasNetmail, NewEcho, NewNetmail, EchoFits, NetmailFits, IsOwn, IsTag, PruneArea, WithArea, Newest, EchoTag;
    if m.area == "" && IsOwn(c, m.dest) {
      NetmailSettles(db, m);
    } else if m.area != "" && c.secure {
      EchoSettles(db, m);
    }
  }

  predicate Roomy(c: Config, db: Db, ms: seq<Message>) {
    forall k :: 0 <= k < |ms| ==> FitsAt(c, db, ms, k)
  }

  predicate FitsAt(c: Config, db: Db, ms: seq<Message>, k: nat)
    requires k < |ms|
  {
    HandleFits(c, ImportAll(c, db, ms[..k]), ms[k])
  }

  lemma ImportNext(c: Config, db: Db, ms: seq<Message>, h: nat)
    requires h < |ms|
    ensures ImportAll(c, db, ms[..h + 1]) == Handle(c, ImportAll(c, db, ms[..h]), ms[h]).db
  {
    hide Handle;
    var p := ms[..h + 1];
    assert p[..|p| - 1] == ms[..h] && p[|p| - 1] == ms[h];
  }

  /** A message that was imported once is settled, however far the run has gone on. */
  lemma {:induction false} ImportedIsSettled(c: Config, db: Db, ms: seq<Message>, k: nat, h: nat)
    requires k < h <= |ms| && Roomy(c, db, ms)
    ensures Settled(c, ImportAll(c, db, ms[..h]), ms[k])
    ensures Handle(c, ImportAll(c, db, ms[..h]), ms[k]).db == ImportAll(c, db, ms[..h])
    decreases h
  {
    hide ImportAll, Handle, HandleFits, Settled, Grows;
    assert FitsAt(c, db, ms, h - 1);
    ImportNext(c, db, ms, h - 1);
    var before := ImportAll(c, db, ms[..h - 1]);
    HandleSettles(c, before, ms[h - 1]);
    if k < h - 1 {
      ImportedIsSettled(c, db, ms, k, h - 1);
      SettledStays(c, before, ImportAll(c, db, ms[..h]), ms[k]);
    } else {
      SettledStays(c, ImportAll(c, db, ms[..h]), ImportAll(c, db, ms[..h]), ms[k]) by { Reflexive(ImportAll(c, db, ms[..h])); }
    }
  }

  lemma Reflexive(db: Db)
    ensures Grows(db, db)
  {
  }

  // ---- where a run is --------------------------------------------------------------------------

  function MsgsAt(es: seq<Entry>, j: nat): seq<Message> {
    if j < |es| then MessagesOf(es[j].file.parts) else []
  }

  /** The file is one whose messages are imported. */
  predicate Fresh(z: Spool, e: Entry) { e.file !in z.ledger && !Fails(e.file) }

  /** After the first h messages, message k is still in its area or box, or is none
      this node takes. */
  predicate SettledAt(c: Config, db: Db, ms: seq<Message>, k: nat, h: nat)
    requires k < h <= |ms|
  {
    Settled(c, ImportAll(c, db, ms[..h]), ms[k])
  }

  /** Importing the messages prunes none of them. */
  ghost predicate Repeatable(c: Config, db: Db, ms: seq<Message>) {
    forall k: nat, h: nat :: k < h <= |ms| ==> SettledAt(c, db, ms, k, h)
  }

  /** In the undisturbed run, no file's import prunes a message of that file. */
  ghost predicate RepeatableFiles(c: Config, z: Spool, es: seq<Entry>) {
    forall j: nat :: j < |es| && Fresh(TossAll(c, z, es[..j]), es[j]) ==>
      Repeatable(c, TossAll(c, z, es[..j]).db, MsgsAt(es, j))
  }

  /** With room for every message the condition holds; a full area may still meet it. */
  lemma RoomIsEnough(c: Config, db: Db, ms: seq<Message>)
    requires Roomy(c, db, ms)
    ensures Repeatable(c, db, ms)
  {
    hide ImportAll, Handle, Roomy, Settled;
    forall k: nat, h: nat | k < h <= |ms| ensures SettledAt(c, db, ms, k, h) {
      ImportedIsSettled(c, db, ms, k, h);
    }
  }

  /** A message is settled when it is not for this node or is still there. */
  lemma SettledMeans(c: Config, db: Db, m: Message)
    ensures Settled(c, db, m) <==> !Takes(c, m) || HasMessage(db, m)
  {
    hide Handle, Takes, HasMessage;
    ResultMeans(c, db, m);
  }

  lemma SettledChangesNothing(c: Config, db: Db, m: Message)
    requires Settled(c, db, m)
    ensures Handle(c, db, m).db == db
  {
    hide Handle;
    ResultMeans(c, db, m);
  }

  /** h messages of the file are in, it is not marked. */
  ghost predicate Partly(c: Config, zj: Spool, s: State, es: seq<Entry>, j: nat, h: nat) {
    && s.z.ledger == zj.ledger && h <= |MsgsAt(es, j)| && s.z.db == ImportAll(c, zj.db, MsgsAt(es, j)[..h])
    && (h > 0 ==> j < |es| && Fresh(zj, es[j]))
  }

  /** The file is imported and marked but not moved. */
  ghost predicate Marked(c: Config, zj: Spool, s: State, es: seq<Entry>, j: nat) {
    && j < |es| && Fresh(zj, es[j]) && s.z.ledger == zj.ledger + {es[j].file}
    && s.z.db == ImportAll(c, zj.db, MsgsAt(es, j))
  }

  ghost predicate PcFits(c: Config, zj: Spool, s: State, es: seq<Entry>, j: nat, h: nat)
    requires j <= |es|
  {
    match s.pc
    case Stopped => true
    case Between(todo) => todo == Names(es[j..])
    case Importing(name, todo, k, _) =>
      && j < |es| && name == es[j].name && todo == Names(es[j + 1..])
      && Fresh(zj, es[j]) && k <= h && Partly(c, zj, s, es, j, h)
    case Moving(name, todo, toBad) =>
      && j < |es| && name == es[j].name && todo == Names(es[j + 1..])
      && toBad == (es[j].file !in s.z.ledger && Fails(es[j].file))
      && (Fresh(zj, es[j]) ==> Marked(c, zj, s, es, j))
  }

  /** The run is at file j: the files before it are as the undisturbed run leaves
      them, those from j on wait in inbound. */
  ghost predicate Track(c: Config, z: Spool, es: seq<Entry>, s: State, j: nat, h: nat) {
    && j <= |es| && s.inbound == es[j..]
    && var zj := TossAll(c, z, es[..j]);
       && s.z.done == zj.done && s.z.bad == zj.bad
       && (Partly(c, zj, s, es, j, h) || Marked(c, zj, s, es, j))
       && PcFits(c, zj, s, es, j, h)
  }

  lemma FirstIsFound(es: seq<Entry>)
    requires es != []
    ensures Find(es, es[0].name) == Found(es[0]) && Drop(es, es[0].name) == es[1..]
  {
  }

  lemma FirstFound(es: seq<Entry>, j: nat)
    requires j < |es|
    ensures Find(es[j..], es[j].name) == Found(es[j]) && Drop(es[j..], es[j].name) == es[j + 1..]
    ensures Names(es[j..]) == [es[j].name] + Names(es[j + 1..])
  {
    hide Find, Drop;
    FirstIsFound(es[j..]);
    assert es[j..][1..] == es[j + 1..];
  }

  lemma TossNext(c: Config, z: Spool, es: seq<Entry>, j: nat)
    requires j < |es|
    ensures TossAll(c, z, es[..j + 1]) == TossOne(c, TossAll(c, z, es[..j]), es[j])
  {
    hide TossOne;
    var p := es[..j + 1];
    assert p[..|p| - 1] == es[..j] && p[|p| - 1] == es[j];
  }

  lemma NothingIn(c: Config, db: Db, ms: seq<Message>)
    ensures ImportAll(c, db, ms[..0]) == db
  {
  }

  lemma AllIn(c: Config, db: Db, ms: seq<Message>)
    ensures ImportAll(c, db, ms[..|ms|]) == ImportAll(c, db, ms)
  {
    assert ms[..|ms|] == ms;
  }

  lemma BetweenTracks(c: Config, z: Spool, es: seq<Entry>, s: State, j: nat, h: nat)
    requires Track(c, z, es, s, j, h) && s.pc.Between?
    ensures Track(c, z, es, GoBetween(s, s.pc.todo), j, h)
  {
    hide Find, Drop, Fails, ImportAll, TossAll, MsgsAt;
    if j < |es| {
      FirstFound(es, j);
      assert s.pc.todo[0] == es[j].name && s.pc.todo[1..] == Names(es[j + 1..]);
    }
  }

  lemma MovingTracks(c: Config, z: Spool, es: seq<Entry>, s: State, j: nat, h: nat)
    requires Track(c, z, es, s, j, h) && s.pc.Moving?
    ensures Track(c, z, es, GoMoving(s, s.pc.name, s.pc.todo, s.pc.toBad), j + 1, 0)
  {
    hide Find, Drop, Fails, ImportAll, TossAll, MsgsAt, MessagesOf, Names;
    FirstFound(es, j);
    TossNext(c, z, es, j);
    var zj := TossAll(c, z, es[..j]);
    MsgsHere(es, j);
    NothingIn(c, zj.db, MsgsAt(es, j));
    NothingIn(c, TossAll(c, z, es[..j + 1]).db, MsgsAt(es, j + 1));
  }

  lemma MsgsHere(es: seq<Entry>, j: nat)
    ensures j < |es| ==> MsgsAt(es, j) == MessagesOf(es[j].file.parts)
    ensures j >= |es| ==> MsgsAt(es, j) == []
  {
  }

  /** Importing goes on from where it is: what an earlier run imported is passed
      over, the first message it did not is imported. */
  lemma ImportingTracks(c: Config, z: Spool, es: seq<Entry>, s: State, j: nat, h: nat) returns (h2: nat)
    requires Track(c, z, es, s, j, h) && s.pc.Importing? && RepeatableFiles(c, z, es)
    ensures Track(c, z, es, GoImporting(c, s, s.pc.name, s.pc.todo, s.pc.k, s.pc.results), j, h2)
    ensures h2 >= h && (s.pc.k < |MsgsAt(es, j)| ==> h2 > s.pc.k)
  {
    hide Find, Drop, Fails, ImportAll, TossAll, MsgsAt, MessagesOf, Names, Handle, Roomy, Settled;
    FirstFound(es, j);
    MsgsHere(es, j);
    var zj := TossAll(c, z, es[..j]);
    var ms := MsgsAt(es, j);
    var k := s.pc.k;
    h2 := if k == h && k < |ms| then h + 1 else h;
    if k < h {
      assert Repeatable(c, zj.db, ms);
      assert SettledAt(c, zj.db, ms, k, h);
      SettledChangesNothing(c, ImportAll(c, zj.db, ms[..h]), ms[k]);
    } else if k < |ms| {
      ImportNext(c, zj.db, ms, h);
    } else {
      AllIn(c, zj.db, ms);
    }
  }

  predicate OnlyCrashes(evs: seq<Event>) { forall e :: e in evs ==> e.Start? || e.Go? || e.Crash? }

  lemma StepTracks(c: Config, z: Spool, es: seq<Entry>, s: State, ev: Event, j: nat, h: nat) returns (j2: nat, h2: nat)
    requires Track(c, z, es, s, j, h) && RepeatableFiles(c, z, es) && (ev.Start? || ev.Go? || ev.Crash?)
    ensures Track(c, z, es, Tossing.Step(c, s, ev), j2, h2) && j2 == if ev.Go? && s.pc.Moving? then j + 1 else j
    ensures j2 == j ==> h2 >= h
    ensures ev.Go? && s.pc.Importing? && s.pc.k < |MsgsAt(es, j)| ==> h2 > s.pc.k
  {
    hide Find, Drop, Fails, ImportAll, TossAll, MsgsAt, MessagesOf, Names, Handle, GoBetween, GoImporting, GoMoving, RepeatableFiles;
    j2, h2 := j, h;
    if ev.Go? {
      if s.pc.Between? {
        BetweenTracks(c, z, es, s, j, h);
      } else if s.pc.Importing? {
        h2 := ImportingTracks(c, z, es, s, j, h);
      } else if s.pc.Moving? {
        MovingTracks(c, z, es, s, j, h);
        j2, h2 := j + 1, 0;
      }
    }
  }

  lemma {:induction false} RunTracks(c: Config, s: State, evs: seq<Event>) returns (j: nat, h: nat)
    requires s.pc.Stopped? && RepeatableFiles(c, s.z, s.inbound) && OnlyCrashes(evs)
    ensures Track(c, s.z, s.inbound, Run(c, s, evs), j, h)
    decreases |evs|
  {
    hide Tossing.Step, RepeatableFiles, ImportAll, MessagesOf;
    if evs == [] {
      j, h := 0, 0;
      NothingIn(c, s.z.db, MsgsAt(s.inbound, 0));
      assert s.inbound[0..] == s.inbound && s.inbound[..0] == [];
    } else {
      j, h := RunTracks(c, s, evs[..|evs| - 1]);
      j, h := StepTracks(c, s.z, s.inbound, Run(c, s, evs[..|evs| - 1]), evs[|evs| - 1], j, h);
    }
  }

  lemma AtTheEnd(c: Config, z: Spool, es: seq<Entry>, s: State, j: nat, h: nat)
    requires Track(c, z, es, s, j, h) && s.inbound == []
    ensures s.z == TossAll(c, z, es)
  {
    hide TossAll, ImportAll, MessagesOf;
    assert j == |es| && es[..j] == es;
    MsgsHere(es, j);
    NothingIn(c, TossAll(c, z, es).db, MsgsAt(es, j));
  }

  /** Any number of crashes and restarts, at any steps: once inbound is empty the
      database, the ledger and both directories are exactly those of one undisturbed
      run, messages and their order included. */
  lemma CrashesDoNotShow(c: Config, s: State, evs: seq<Event>)
    requires s.pc.Stopped? && RepeatableFiles(c, s.z, s.inbound) && OnlyCrashes(evs)
    ensures var t := Run(c, s, evs);
            t.inbound == [] ==> t.z == TossAll(c, s.z, s.inbound)
  {
    hide Run, RepeatableFiles, TossAll, Track;
    var j, h := RunTracks(c, s, evs);
    if Run(c, s, evs).inbound == [] {
      AtTheEnd(c, s.z, s.inbound, Run(c, s, evs), j, h);
    }
  }

  function GoOn(c: Config, s: State, n: nat): State
    decreases n
  {
    if n == 0 then s else GoOn(c, Tossing.Step(c, s, Go), n - 1)
  }

  function Stage(pc: Pc): nat {
    match pc
    case Between(_) => 2
    case Importing(_, _, _, _) => 1
    case _ => 0
  }

  lemma GoProgresses(c: Config, z: Spool, es: seq<Entry>, s: State, j: nat, h: nat)
    requires Track(c, z, es, s, j, h) && s.inbound != [] && !s.pc.Stopped?
    ensures var t := Tossing.Step(c, s, Go);
            if s.pc.Moving? then t.pc.Between?
            else if s.pc.Importing? then t.pc.Moving? || (t.pc.Importing? && t.pc.k == s.pc.k + 1 && s.pc.k < |MsgsAt(es, j)|)
            else t.pc.Moving? || t.pc.Importing?
  {
    hide Find, Drop, Fails, ImportAll, TossAll, MessagesOf, Handle, Names;
    FirstFound(es, j);
    MsgsHere(es, j);
  }

  lemma {:induction false} Finishes(c: Config, z: Spool, es: seq<Entry>, s: State, j: nat, h: nat) returns (n: nat)
    requires Track(c, z, es, s, j, h) && RepeatableFiles(c, z, es) && !s.pc.Stopped?
    ensures GoOn(c, s, n).inbound == [] && GoOn(c, s, n).z == TossAll(c, z, es)
    decreases |es| - j, Stage(s.pc), if s.pc.Importing? then |MsgsAt(es, j)| - s.pc.k else 0
  {
    hide Find, Drop, Fails, ImportAll, TossAll, MsgsAt, MessagesOf, Handle, Names, Tossing.Step, RepeatableFiles;
    if s.inbound == [] {
      n := 0;
      AtTheEnd(c, z, es, s, j, h);
    } else {
      GoProgresses(c, z, es, s, j, h);
      var j2, h2 := StepTracks(c, z, es, s, Go, j, h);
      n := Finishes(c, z, es, Tossing.Step(c, s, Go), j2, h2);
      n := n + 1;
    }
  }

  /** However a run was cut short, starting it once more and leaving it alone brings
      everything where the undisturbed run would have. */
  lemma RestartFinishes(c: Config, s: State, evs: seq<Event>) returns (n: nat)
    requires s.pc.Stopped? && RepeatableFiles(c, s.z, s.inbound) && OnlyCrashes(evs)
    ensures var t := GoOn(c, Tossing.Step(c, Tossing.Step(c, Run(c, s, evs), Crash), Start), n);
            t.inbound == [] && t.z == TossAll(c, s.z, s.inbound)
  {
    hide Run, RepeatableFiles, TossAll, Track, Names, GoBetween, GoImporting, GoMoving;
    var u := Run(c, s, evs);
    var j, h := RunTracks(c, s, evs);
    j, h := StepTracks(c, s.z, s.inbound, u, Crash, j, h);
    j, h := StepTracks(c, s.z, s.inbound, Tossing.Step(c, u, Crash), Start, j, h);
    n := Finishes(c, s.z, s.inbound, Tossing.Step(c, Tossing.Step(c, u, Crash), Start), j, h);
  }
}
