/**
 When a rerun of the tosser stores a message a second time: exactly when a file's own
 import prunes one of its messages.
 */
module TossRepeats {
  import Charsets
  import opened Text
  import opened Addresses
  import opened Messages
  import opened FtnStore
  import opened Tossing
  import opened TossCrashes

  // ---- schedules ------------------------------------------------------------------------

  function Gos(n: nat): (evs: seq<Event>)
    ensures |evs| == n && forall k :: 0 <= k < n ==> evs[k] == Go
  {
    if n == 0 then [] else Gos(n - 1) + [Go]
  }

  lemma RunOneMore(c: Config, s: State, evs: seq<Event>, ev: Event)
    ensures Run(c, s, evs + [ev]) == Tossing.Step(c, Run(c, s, evs), ev)
  {
    hide Tossing.Step;
    assert (evs + [ev])[..|evs|] == evs;
  }

  lemma RunGo(c: Config, s: State, evs: seq<Event>, n: nat)
    ensures Run(c, s, evs + Gos(n + 1)) == Tossing.Step(c, Run(c, s, evs + Gos(n)), Go)
  {
    hide Run, Tossing.Step;
    RunOneMore(c, s, evs + Gos(n), Go);
    Assoc(evs, Gos(n), [Go]);
  }

  lemma NoGos(evs: seq<Event>)
    ensures evs + Gos(0) == evs
  {
  }

  /** The program is about to take the file e, which is first in inbound. */
  ghost predicate Before(u: State, e: Entry, todo: seq<string>) {
    u.pc == Between([e.name] + todo) && u.inbound != [] && u.inbound[0] == e
  }

  /** It has handled the first h messages of e, from the database u had. */
  ghost predicate Inside(c: Config, u: State, t: State, e: Entry, todo: seq<string>, h: nat) {
    && t.pc.Importing? && t.pc.name == e.name && t.pc.todo == todo && t.pc.k == h
    && t.inbound == u.inbound && h <= |MessagesOf(e.file.parts)|
    && t.z == u.z.(db := ImportAll(c, u.z.db, MessagesOf(e.file.parts)[..h]))
  }

  lemma EnterFile(c: Config, u: State, e: Entry, todo: seq<string>)
    requires Before(u, e, todo) && Fresh(u.z, e)
    ensures Inside(c, u, Tossing.Step(c, u, Go), e, todo, 0)
  {
    hide Find, Drop, Fails, MessagesOf, ImportAll;
    FirstIsFound(u.inbound);
    NothingIn(c, u.z.db, MessagesOf(e.file.parts));
    assert ([e.name] + todo)[1..] == todo;
  }

  lemma NextMessage(c: Config, u: State, t: State, e: Entry, todo: seq<string>, h: nat)
    requires Before(u, e, todo) && Inside(c, u, t, e, todo, h) && h < |MessagesOf(e.file.parts)|
    ensures Inside(c, u, Tossing.Step(c, t, Go), e, todo, h + 1)
  {
    hide Find, Drop, Fails, MessagesOf, ImportAll, Handle;
    FirstIsFound(u.inbound);
    ImportNext(c, u.z.db, MessagesOf(e.file.parts), h);
  }

  lemma {:induction false} Pass(c: Config, s: State, evs: seq<Event>, e: Entry, todo: seq<string>, h: nat)
    requires Before(Run(c, s, evs), e, todo) && Fresh(Run(c, s, evs).z, e) && h <= |MessagesOf(e.file.parts)|
    ensures Inside(c, Run(c, s, evs), Run(c, s, evs + Gos(h + 1)), e, todo, h)
    decreases h
  {
    hide Run, Tossing.Step, Before, Inside, Fresh, MessagesOf;
    var u := Run(c, s, evs);
    RunGo(c, s, evs, h);
    if h == 0 {
      NoGos(evs);
      EnterFile(c, u, e, todo);
    } else {
      Pass(c, s, evs, e, todo, h - 1);
      NextMessage(c, u, Run(c, s, evs + Gos(h)), e, todo, h - 1);
    }
  }

  /** Nothing has disturbed the run, and it is before file j. */
  ghost predicate At(c: Config, z: Spool, es: seq<Entry>, u: State, j: nat) {
    j <= |es| && u.inbound == es[j..] && u.z == TossAll(c, z, es[..j]) && u.pc == Between(Names(es[j..]))
  }

  lemma AtIsBefore(c: Config, z: Spool, es: seq<Entry>, u: State, j: nat)
    requires At(c, z, es, u, j) && j < |es|
    ensures Before(u, es[j], Names(es[j + 1..]))
  {
    hide TossAll, Find, Drop;
    FirstFound(es, j);
  }

  /** A file that is not imported is only moved. */
  lemma AsideSteps(c: Config, z: Spool, es: seq<Entry>, u: State, j: nat)
    requires At(c, z, es, u, j) && j < |es| && !Fresh(u.z, es[j])
    ensures At(c, z, es, Tossing.Step(c, Tossing.Step(c, u, Go), Go), j + 1)
  {
    hide TossAll, Find, Drop, Fails, Names, ImportAll, MessagesOf;
    AtIsBefore(c, z, es, u, j);
    FirstFound(es, j);
    TossNext(c, z, es, j);
    assert u.pc.todo[1..] == Names(es[j + 1..]);
  }

  lemma LeaveFile(c: Config, z: Spool, es: seq<Entry>, u: State, t: State, j: nat)
    requires At(c, z, es, u, j) && j < |es| && Fresh(u.z, es[j])
    requires Inside(c, u, t, es[j], Names(es[j + 1..]), |MessagesOf(es[j].file.parts)|)
    ensures At(c, z, es, Tossing.Step(c, Tossing.Step(c, t, Go), Go), j + 1)
  {
    hide TossAll, Find, Drop, Fails, Names, ImportAll, MessagesOf;
    FirstFound(es, j);
    TossNext(c, z, es, j);
    AllIn(c, u.z.db, MessagesOf(es[j].file.parts));
  }

  lemma TwoGos(c: Config, s: State, evs: seq<Event>, n: nat)
    ensures Run(c, s, evs + Gos(n + 2)) == Tossing.Step(c, Tossing.Step(c, Run(c, s, evs + Gos(n)), Go), Go)
  {
    hide Run, Tossing.Step;
    RunGo(c, s, evs, n);
    RunGo(c, s, evs, n + 1);
  }

  lemma NextFile(c: Config, s: State, evs: seq<Event>, j: nat) returns (n: nat)
    requires At(c, s.z, s.inbound, Run(c, s, evs), j) && j < |s.inbound|
    ensures At(c, s.z, s.inbound, Run(c, s, evs + Gos(n)), j + 1)
  {
    hide Run, Tossing.Step, At, Before, Inside, Fresh, MessagesOf;
    var u, e := Run(c, s, evs), s.inbound[j];
    if Fresh(u.z, e) {
      var h := |MessagesOf(e.file.parts)|;
      AtIsBefore(c, s.z, s.inbound, u, j);
      Pass(c, s, evs, e, Names(s.inbound[j + 1..]), h);
      TwoGos(c, s, evs, h + 1);
      LeaveFile(c, s.z, s.inbound, u, Run(c, s, evs + Gos(h + 1)), j);
      n := h + 3;
    } else {
      NoGos(evs);
      TwoGos(c, s, evs, 0);
      AsideSteps(c, s.z, s.inbound, u, j);
      n := 2;
    }
  }

  lemma StartsAt(c: Config, s: State)
    requires s.pc.Stopped?
    ensures At(c, s.z, s.inbound, Run(c, s, [Start]), 0)
  {
    hide Names;
    RunOneMore(c, s, [], Start);
    assert [] + [Start] == [Start];
    assert s.inbound[0..] == s.inbound && s.inbound[..0] == [];
  }

  lemma MoreGos(evs: seq<Event>, n: nat)
    requires OnlyCrashes(evs)
    ensures OnlyCrashes(evs + Gos(n))
  {
  }

  lemma {:induction false} Reach(c: Config, s: State, j: nat) returns (evs: seq<Event>)
    requires s.pc.Stopped? && j <= |s.inbound|
    ensures OnlyCrashes(evs) && At(c, s.z, s.inbound, Run(c, s, evs), j)
  {
    hide Run, At;
    if j == 0 {
      evs := [Start];
      StartsAt(c, s);
    } else {
      evs := Reach(c, s, j - 1);
      var n := NextFile(c, s, evs, j - 1);
      MoreGos(evs, n);
      evs := evs + Gos(n);
    }
  }

  // ---- a message is stored again --------------------------------------------------------------

  /** Step i went over message k of the file. */
  ghost predicate PassedAt(c: Config, s: State, evs: seq<Event>, i: nat, name: string, k: nat) {
    && i < |evs| && evs[i] == Go
    && var v := Run(c, s, evs[..i]); v.pc.Importing? && v.pc.name == name && v.pc.k == k
  }

  /** The message the run is at is about to be stored, and it was handled before. */
  ghost predicate StoredAgain(c: Config, s: State, evs: seq<Event>) {
    var u := Run(c, s, evs);
    && u.pc.Importing? && Find(u.inbound, u.pc.name).Found?
    && var ms := MessagesOf(Find(u.inbound, u.pc.name).e.file.parts);
       && u.pc.k < |ms| && Handle(c, u.z.db, ms[u.pc.k]).result == Stored
       && exists i: nat :: PassedAt(c, s, evs, i, u.pc.name, u.pc.k)
  }

  lemma {:induction false} FirstUnsettled(c: Config, db: Db, ms: seq<Message>, k: nat, h: nat) returns (k0: nat)
    requires k < h <= |ms| && !SettledAt(c, db, ms, k, h)
    ensures k0 <= k && !SettledAt(c, db, ms, k0, h) && forall i: nat :: i < k0 ==> SettledAt(c, db, ms, i, h)
    decreases k
  {
    hide SettledAt;
    if exists i: nat :: i < k && !SettledAt(c, db, ms, i, h) {
      var i: nat :| i < k && !SettledAt(c, db, ms, i, h);
      k0 := FirstUnsettled(c, db, ms, i, h);
    } else {
      k0 := k;
    }
  }

  /** Going over settled messages once more leaves the database. */
  lemma {:induction false} SettledAgain(c: Config, db: Db, ms: seq<Message>, k: nat, h: nat)
    requires k < h <= |ms| && forall i: nat :: i < k ==> SettledAt(c, db, ms, i, h)
    ensures ImportAll(c, ImportAll(c, db, ms[..h]), ms[..k]) == ImportAll(c, db, ms[..h])
    decreases k
  {
    hide ImportAll, Handle, Settled;
    var d := ImportAll(c, db, ms[..h]);
    if k == 0 {
      NothingIn(c, d, ms);
    } else {
      SettledAgain(c, db, ms, k - 1, h);
      ImportNext(c, d, ms, k - 1);
      assert SettledAt(c, db, ms, k - 1, h);
      SettledChangesNothing(c, d, ms[k - 1]);
    }
  }

  /** The schedule: up to message h, a crash, and once more up to message k. */
  function CrashAndRerun(evs: seq<Event>, h: nat, k: nat): seq<Event> {
    evs + Gos(h + 1) + [Crash] + [Start] + Gos(k + 1)
  }

  lemma CrashOver(c: Config, s: State, evs: seq<Event>, u: State, e: Entry, todo: seq<string>, h: nat)
    requires Before(u, e, todo) && Inside(c, u, Run(c, s, evs), e, todo, h) && Names(u.inbound) == [e.name] + todo
    ensures var v := Run(c, s, evs + [Crash] + [Start]);
            Before(v, e, todo) && v.z == Run(c, s, evs).z && v.inbound == u.inbound
  {
    hide Run, ImportAll, MessagesOf, Names;
    RunOneMore(c, s, evs, Crash);
    RunOneMore(c, s, evs + [Crash], Start);
  }

  lemma EarlierPass(c: Config, s: State, evs: seq<Event>, e: Entry, todo: seq<string>, h: nat, k: nat)
    requires Before(Run(c, s, evs), e, todo) && Fresh(Run(c, s, evs).z, e) && k < h <= |MessagesOf(e.file.parts)|
    ensures PassedAt(c, s, CrashAndRerun(evs, h, k), |evs| + k + 1, e.name, k)
  {
    hide Run, Before, Fresh, MessagesOf, ImportAll;
    Pass(c, s, evs, e, todo, k);
    var all := CrashAndRerun(evs, h, k);
    var i := |evs| + k + 1;
    GosPrefix(h + 1, k + 1);
    assert all == evs + (Gos(h + 1) + ([Crash] + [Start] + Gos(k + 1)));
    assert all[..i] == evs + Gos(h + 1)[..k + 1];
    assert all[i] == Gos(h + 1)[k + 1];
  }

  lemma GosPrefix(n: nat, m: nat)
    requires m <= n
    ensures Gos(n)[..m] == Gos(m)
  {
  }

  lemma AllowedEvents(evs: seq<Event>, h: nat, k: nat)
    requires OnlyCrashes(evs)
    ensures OnlyCrashes(CrashAndRerun(evs, h, k))
  {
  }

  /** If some message is not settled after h, then a crash after h and a rerun store
      a message of the file a second time: the first that is not settled. */
  lemma CrashStoresAgain(c: Config, s: State, j: nat, k: nat, h: nat) returns (evs: seq<Event>)
    requires s.pc.Stopped? && j < |s.inbound| && Fresh(TossAll(c, s.z, s.inbound[..j]), s.inbound[j])
    requires k < h <= |MsgsAt(s.inbound, j)|
    requires !SettledAt(c, TossAll(c, s.z, s.inbound[..j]).db, MsgsAt(s.inbound, j), k, h)
    ensures OnlyCrashes(evs) && StoredAgain(c, s, evs)
  {
    hide Run, Before, Fresh, MessagesOf, ImportAll, Handle, TossAll, Names, OnlyCrashes, CrashAndRerun, PassedAt, MsgsAt;
    MsgsHere(s.inbound, j);
    var e, todo, ms := s.inbound[j], Names(s.inbound[j + 1..]), MsgsAt(s.inbound, j);
    var start := Reach(c, s, j);
    var u := Run(c, s, start);
    AtIsBefore(c, s.z, s.inbound, u, j);
    FirstFound(s.inbound, j);
    var k0 := FirstUnsettled(c, u.z.db, ms, k, h);
    evs := CrashAndRerun(start, h, k0);
    AllowedEvents(start, h, k0);
    Pass(c, s, start, e, todo, h);
    CrashOver(c, s, start + Gos(h + 1), u, e, todo, h);
    RerunStores(c, s, start, u, e, todo, h, k0);
    EarlierPass(c, s, start, e, todo, h, k0);
  }

  lemma RerunStores(c: Config, s: State, start: seq<Event>, u: State, e: Entry, todo: seq<string>, h: nat, k: nat)
    requires Before(u, e, todo) && Fresh(u.z, e) && k < h <= |MessagesOf(e.file.parts)|
    requires var v := Run(c, s, start + Gos(h + 1) + [Crash] + [Start]);
             Before(v, e, todo) && v.z == u.z.(db := ImportAll(c, u.z.db, MessagesOf(e.file.parts)[..h])) && v.inbound == u.inbound
    requires !SettledAt(c, u.z.db, MessagesOf(e.file.parts), k, h)
    requires forall i: nat :: i < k ==> SettledAt(c, u.z.db, MessagesOf(e.file.parts), i, h)
    ensures var t := Run(c, s, CrashAndRerun(start, h, k));
            && t.pc.Importing? && t.pc.name == e.name && t.pc.k == k && Find(t.inbound, e.name) == Found(e)
            && Handle(c, t.z.db, MessagesOf(e.file.parts)[k]).result == Stored
  {
    hide Run, Fails, MessagesOf, ImportAll, Handle, Find, Drop;
    var evs := start + Gos(h + 1) + [Crash] + [Start];
    Pass(c, s, evs, e, todo, k);
    SettledAgain(c, u.z.db, MessagesOf(e.file.parts), k, h);
    FirstIsFound(u.inbound);
  }

  // ---- and otherwise none is -----------------------------------------------------------------------

  /** Where a run is after it went over a message: in a later file, or further on in
      the same one. */
  lemma {:induction false} PassedOn(c: Config, s: State, evs: seq<Event>, i: nat, name: string, k: nat)
    returns (j1: nat, j: nat, h: nat)
    requires s.pc.Stopped? && RepeatableFiles(c, s.z, s.inbound) && OnlyCrashes(evs)
    requires PassedAt(c, s, evs, i, name, k)
    ensures j1 < |s.inbound| && s.inbound[j1].name == name && Track(c, s.z, s.inbound, Run(c, s, evs), j, h)
    ensures j >= j1 && (j == j1 && k < |MsgsAt(s.inbound, j)| ==> h > k)
    decreases |evs|
  {
    hide Tossing.Step, RepeatableFiles, ImportAll, MessagesOf, Run, MsgsAt, TossAll;
    var before := evs[..|evs| - 1];
    var ev := evs[|evs| - 1];
    assert evs == before + [ev];
    RunOneMore(c, s, before, ev);
    assert OnlyCrashes(before);
    if i == |evs| - 1 {
      j, h := RunTracks(c, s, before);
      j1 := j;
    } else {
      assert before[..i] == evs[..i];
      j1, j, h := PassedOn(c, s, before, i, name, k);
    }
    j, h := StepTracks(c, s.z, s.inbound, Run(c, s, before), ev, j, h);
  }

  /** In a run whose files prune none of their own messages, none is stored again. */
  lemma NoneStoredAgain(c: Config, s: State, evs: seq<Event>)
    requires s.pc.Stopped? && RepeatableFiles(c, s.z, s.inbound) && OnlyCrashes(evs) && Distinct(s.inbound)
    ensures !StoredAgain(c, s, evs)
  {
    hide RepeatableFiles, ImportAll, MessagesOf, Run, TossAll, Find, Drop, Handle, OnlyCrashes, MsgsAt, Fails;
    if StoredAgain(c, s, evs) {
      var u := Run(c, s, evs);
      var i: nat :| PassedAt(c, s, evs, i, u.pc.name, u.pc.k);
      var j1, j, h := PassedOn(c, s, evs, i, u.pc.name, u.pc.k);
      FirstFound(s.inbound, j);
      MsgsHere(s.inbound, j);
      assert j == j1;
      SettledThere(c, s, j, u.pc.k, h);
    }
  }

  lemma SettledThere(c: Config, s: State, j: nat, k: nat, h: nat)
    requires RepeatableFiles(c, s.z, s.inbound) && j < |s.inbound| && k < h <= |MsgsAt(s.inbound, j)|
    requires Fresh(TossAll(c, s.z, s.inbound[..j]), s.inbound[j])
    ensures SettledAt(c, TossAll(c, s.z, s.inbound[..j]).db, MsgsAt(s.inbound, j), k, h)
  {
    hide SettledAt, TossAll, MsgsAt, Fresh;
  }

  /** A crash and a rerun can store a message a second time if and only if some file's
      own import prunes a message of that file. */
  lemma StoredAgainExactly(c: Config, s: State)
    requires s.pc.Stopped? && Distinct(s.inbound)
    ensures (exists evs: seq<Event> :: OnlyCrashes(evs) && StoredAgain(c, s, evs)) <==> !RepeatableFiles(c, s.z, s.inbound)
  {
    hide SettledAt, TossAll, MsgsAt, Fresh, StoredAgain, OnlyCrashes, Distinct;
    if RepeatableFiles(c, s.z, s.inbound) {
      forall evs: seq<Event> | OnlyCrashes(evs) ensures !StoredAgain(c, s, evs) {
        NoneStoredAgain(c, s, evs);
      }
    } else {
      var j: nat :| j < |s.inbound| && Fresh(TossAll(c, s.z, s.inbound[..j]), s.inbound[j])
        && !Repeatable(c, TossAll(c, s.z, s.inbound[..j]).db, MsgsAt(s.inbound, j));
      var k: nat, h: nat :| k < h <= |MsgsAt(s.inbound, j)|
        && !SettledAt(c, TossAll(c, s.z, s.inbound[..j]).db, MsgsAt(s.inbound, j), k, h);
      var evs := CrashStoresAgain(c, s, j, k, h);
    }
  }

  // ---- a full area ----------------------------------------------------------------------------------

  /** The area is full, a's row is its oldest and the first of the table, and b is new. */
  ghost predicate Crowded(c: Config, db: Db, a: Message, b: Message, id: nat) {
    && c.secure && a.area != "" && b.area != "" && IsTag(EchoTag(a)) && EchoTag(b) == EchoTag(a)
    && FtnStore.HasArea(db.areas, EchoTag(a)) && AreaId(db.areas, EchoTag(a)) == id
    && |db.echo| >= 2 && |InArea(db.echo, id)| == MAX_ECHO && db.echo[0].area == db.echo[1].area == id
    && db.echo[0].key == KeyOf(a) && !HasEcho(db.echo[1..], KeyOf(a)) && !HasEcho(db.echo, KeyOf(b)) && KeyOf(a) != KeyOf(b)
  }

  /** A new message for a full area whose oldest row is first: that row goes. */
  lemma PushesOut(c: Config, db: Db, m: Message, id: nat)
    requires c.secure && m.area != "" && IsTag(EchoTag(m)) && FtnStore.HasArea(db.areas, EchoTag(m)) && AreaId(db.areas, EchoTag(m)) == id
    requires db.echo != [] && db.echo[0].area == id && |InArea(db.echo, id)| == MAX_ECHO && !HasEcho(db.echo, KeyOf(m))
    ensures var t := Handle(c, db, m);
            t.result == Stored && t.db == db.(echo := db.echo[1..] + [NewEcho(db, m)])
            && NewEcho(db, m).area == id && NewEcho(db, m).key == KeyOf(m)
            && |InArea(t.db.echo, id)| == MAX_ECHO
  {
    hide IsTag, KeyOf, HasEcho, EchoTag, String, OrElse, FitBytes, InArea;
    var row := NewEcho(db, m);
    var all := db.echo + [row];
    InAreaConcat(db.echo, [row], id);
    InAreaOne(row, id);
    assert all[1..] == db.echo[1..] + [row];
    assert DropOldest(all, id, 1) == all[1..] by { DropFirst(all, id); }
    InAreaFirst(all, id);
  }

  lemma DropFirst(rows: seq<EchoRow>, id: nat)
    requires rows != [] && rows[0].area == id
    ensures DropOldest(rows, id, 1) == rows[1..]
  {
  }

  /** A message that is there is a duplicate. */
  lemma IsDuplicate(c: Config, db: Db, m: Message)
    requires c.secure && m.area != "" && IsTag(EchoTag(m)) && HasEcho(db.echo, KeyOf(m))
    ensures Handle(c, db, m) == Import(db, Duplicate)
  {
    hide IsTag, KeyOf, HasEcho, EchoTag;
  }

  lemma TwoImports(c: Config, db: Db, a: Message, b: Message)
    ensures ImportAll(c, db, [a, b]) == Handle(c, Handle(c, db, a).db, b).db
  {
    hide Handle;
    ImportNext(c, db, [a, b], 0);
    ImportNext(c, db, [a, b], 1);
    NothingIn(c, db, [a, b]);
    assert [a, b][..2] == [a, b];
  }

  lemma HasEchoParts(x: seq<EchoRow>, row: EchoRow, key: Key)
    ensures HasEcho(x + [row], key) <==> HasEcho(x, key) || row.key == key
  {
    if row.key == key {
      assert row in x + [row];
    }
    forall r | r in x ensures r in x + [row] {
    }
  }

  /** Importing a and b leaves b as the newest and a nowhere; importing them once more
      stores a again and ends with other rows. */
  lemma CrowdedOut(c: Config, db: Db, a: Message, b: Message, id: nat)
    requires Crowded(c, db, a, b, id)
    ensures var d := ImportAll(c, db, [a, b]);
            && d == db.(echo := db.echo[1..] + [NewEcho(db, b)])
            && Handle(c, d, a).result == Stored
            && ImportAll(c, d, [a, b]) != d
  {
    hide IsTag, KeyOf, HasEcho, EchoTag, Handle, ImportAll, InArea, AreaId, FtnStore.HasArea, NewEcho;
    var rows := db.echo;
    assert HasEcho(rows, KeyOf(a)) by { OldestIsThere(rows); }
    IsDuplicate(c, db, a);
    PushesOut(c, db, b, id);
    TwoImports(c, db, a, b);
    var d := ImportAll(c, db, [a, b]);
    HasEchoParts(rows[1..], NewEcho(db, b), KeyOf(a));
    HasEchoParts(rows[1..], NewEcho(db, b), KeyOf(b));
    assert d.echo[0] == rows[1];
    PushesOut(c, d, a, id);
    var d2 := Handle(c, d, a).db;
    TwoImports(c, d, a, b);
    PushedBack(c, db, d, a, b, id);
    IsDuplicate(c, d2, b);
    assert d2.echo[|d2.echo| - 1].key == KeyOf(a);
    assert d.echo[|d.echo| - 1].key == KeyOf(b);
  }

  lemma ThreeImports(c: Config, db: Db, a: Message, b: Message)
    ensures ImportAll(c, db, [a, b, a]) == Handle(c, ImportAll(c, db, [a, b]), a).db
  {
    hide Handle, ImportAll;
    ImportNext(c, db, [a, b, a], 2);
    assert [a, b, a][..3] == [a, b, a] && [a, b, a][..2] == [a, b];
  }

  /** If a comes once more after b, the import ends with it in any case, and the rerun
      that stores it early ends with the same rows. */
  lemma ComesAgain(c: Config, db: Db, a: Message, b: Message, id: nat)
    requires Crowded(c, db, a, b, id)
    ensures var d := ImportAll(c, db, [a, b]);
            Handle(c, d, a).result == Stored && ImportAll(c, d, [a, b, a]) == ImportAll(c, db, [a, b, a])
  {
    hide IsTag, KeyOf, HasEcho, EchoTag, Handle, ImportAll, InArea, AreaId, FtnStore.HasArea, NewEcho;
    var rows := db.echo;
    CrowdedOut(c, db, a, b, id);
    var d := ImportAll(c, db, [a, b]);
    ThreeImports(c, db, a, b);
    ThreeImports(c, d, a, b);
    TwoImports(c, d, a, b);
    PushedBack(c, db, d, a, b, id);
    var d2 := Handle(c, d, a).db;
    IsDuplicate(c, d2, b);
    IsDuplicate(c, d2, a);
  }

  /** Stored again, a is there and b is still. */
  lemma PushedBack(c: Config, db: Db, d: Db, a: Message, b: Message, id: nat)
    requires Crowded(c, db, a, b, id) && d == db.(echo := db.echo[1..] + [NewEcho(db, b)])
    ensures var d2 := Handle(c, d, a).db; HasEcho(d2.echo, KeyOf(a)) && HasEcho(d2.echo, KeyOf(b))
  {
    hide IsTag, KeyOf, HasEcho, EchoTag, Handle, InArea, AreaId, FtnStore.HasArea, NewEcho;
    var rows := db.echo;
    PushesOut(c, db, b, id);
    HasEchoParts(rows[1..], NewEcho(db, b), KeyOf(a));
    assert d.echo[0] == rows[1];
    PushesOut(c, d, a, id);
    assert d.echo[1..] == rows[2..] + [NewEcho(db, b)];
    HasEchoParts(rows[2..], NewEcho(db, b), KeyOf(b));
    HasEchoParts(d.echo[1..], NewEcho(d, a), KeyOf(b));
    HasEchoParts(d.echo[1..], NewEcho(d, a), KeyOf(a));
  }

  lemma OldestIsThere(rows: seq<EchoRow>)
    requires rows != []
    ensures HasEcho(rows, rows[0].key)
  {
  }

  // ---- one to look at ------------------------------------------------------------------------------

  /** Names of different lengths, which are different names. */
  function Xs(n: nat): (s: string)
    ensures |s| == n && forall k :: 0 <= k < n ==> s[k] == 'x'
  {
    if n == 0 then "" else Xs(n - 1) + "x"
  }

  function OldRows(n: nat): (rows: seq<EchoRow>)
    ensures |rows| == n
    ensures forall k :: 0 <= k < n ==>
              rows[k] == EchoRow(k + 1, 1, Given(Xs(k + 1)), "Ann", "2:280/1", "All", "News", "", "")
  {
    if n == 0 then []
    else OldRows(n - 1) + [EchoRow(n, 1, Given(Xs(n)), "Ann", "2:280/1", "All", "News", "", "")]
  }

  const FULL := Db([Area(1, "A")], OldRows(MAX_ECHO), [])

  function Post(msgID: Bytes): Message {
    Message("A", "Ann", "All", "News", "", Addr(2, 280, 1, 0, ""), Addr(2, 280, 2, 0, ""), 0,
            msgID, "", Charsets.ASCII, "", "", [], [], [])
  }

  lemma {:induction false} OneAreaOnly(rows: seq<EchoRow>)
    requires forall k :: 0 <= k < |rows| ==> rows[k].area == 1
    ensures InArea(rows, 1) == rows
    decreases |rows|
  {
    if rows != [] {
      OneAreaOnly(rows[1..]);
    }
  }

  lemma PostIs(msgID: Bytes)
    requires |msgID| == 1 && '!' <= msgID[0] <= '~'
    ensures var m := Post(msgID);
            KeyOf(m) == Given(msgID) && EchoTag(m) == "A" && IsTag(EchoTag(m)) && m.area != ""
  {
    TrimGraphicEnds(msgID);
    TrimGraphicEnds("A");
    assert ToUpper("A") == "A";
  }

  lemma FullIsCrowded(c: Config)
    requires c.secure
    ensures Crowded(c, FULL, Post("x"), Post("y"), 1)
  {
    hide KeyOf, EchoTag, Xs;
    PostIs("x");
    PostIs("y");
    var rows := FULL.echo;
    OneAreaOnly(rows);
    assert Xs(1) == "x";
    assert FULL.areas[0] in FULL.areas;
    forall r | r in rows[1..] ensures r.key != Given("x") {
      var k :| 0 <= k < |rows[1..]| && rows[1..][k] == r;
      assert r == rows[k + 1] && |Xs(k + 2)| == k + 2;
    }
    forall r | r in rows ensures r.key != Given("y") {
      var k :| 0 <= k < |rows| && rows[k] == r;
      assert Xs(k + 1)[0] == 'x';
    }
  }

  const BUNDLE := Entry("new.pkt", File([Readable([Post("x"), Post("y")])]))

  lemma BundleIs()
    ensures MessagesOf(BUNDLE.file.parts) == [Post("x"), Post("y")] && !Fails(BUNDLE.file)
  {
    assert BUNDLE.file.parts[1..] == [];
    assert Readable([Post("x"), Post("y")]) in BUNDLE.file.parts;
  }

  lemma WholeBundle(c: Config, s: State, evs: seq<Event>)
    requires Before(Run(c, s, evs), BUNDLE, []) && Fresh(Run(c, s, evs).z, BUNDLE)
    ensures Inside(c, Run(c, s, evs), Run(c, s, evs + Gos(3)), BUNDLE, [], 2)
    ensures Run(c, s, evs + Gos(3)).z == Run(c, s, evs).z.(db := ImportAll(c, Run(c, s, evs).z.db, [Post("x"), Post("y")]))
  {
    hide Run, Fails, ImportAll;
    BundleIs();
    Pass(c, s, evs, BUNDLE, [], 2);
    AllIn(c, Run(c, s, evs).z.db, [Post("x"), Post("y")]);
  }

  lemma FinishBundle(c: Config, u: State, t: State)
    requires Before(u, BUNDLE, []) && Fresh(u.z, BUNDLE) && Inside(c, u, t, BUNDLE, [], 2) && u.inbound == [BUNDLE]
    ensures var v := Tossing.Step(c, Tossing.Step(c, t, Go), Go);
            v.inbound == [] && v.z.db == t.z.db
  {
    hide Fails, ImportAll, Find, Drop;
    BundleIs();
    FirstIsFound(u.inbound);
  }

  lemma OneFile(c: Config, z: Spool, e: Entry)
    requires Fresh(z, e)
    ensures TossAll(c, z, [e]).db == ImportAll(c, z.db, MessagesOf(e.file.parts))
  {
    hide Fails, ImportAll, MessagesOf;
    assert [e][..0] == [];
  }

  lemma StartBundle(c: Config, s: State)
    requires s.pc.Stopped? && s.inbound == [BUNDLE]
    ensures Before(Run(c, s, [Start]), BUNDLE, []) && Run(c, s, [Start]).z == s.z
    ensures Run(c, s, [Start]).inbound == s.inbound && Names(s.inbound) == ["new.pkt"] + []
  {
    RunOneMore(c, s, [], Start);
    assert [] + [Start] == [Start];
    assert Names([BUNDLE]) == ["new.pkt"] && ["new.pkt"] + [] == ["new.pkt"];
  }

  const KILLED := [Start] + Gos(3) + [Crash] + [Start]

  lemma AfterTheCrash(c: Config, s: State)
    requires s.pc.Stopped? && s.inbound == [BUNDLE] && s.z.ledger == {}
    ensures var u := Run(c, s, KILLED);
            && Before(u, BUNDLE, []) && Fresh(u.z, BUNDLE) && u.inbound == [BUNDLE]
            && u.z.db == ImportAll(c, s.z.db, [Post("x"), Post("y")])
  {
    hide Run, Before, Inside, ImportAll, Names, MessagesOf, Fails, Post;
    BundleIs();
    StartBundle(c, s);
    WholeBundle(c, s, [Start]);
    CrashOver(c, s, [Start] + Gos(3), Run(c, s, [Start]), BUNDLE, [], 2);
  }

  lemma AfterTheRerun(c: Config, s: State)
    requires s.pc.Stopped? && s.inbound == [BUNDLE] && s.z.ledger == {}
    ensures var t := Run(c, s, KILLED + Gos(5)); var d := ImportAll(c, s.z.db, [Post("x"), Post("y")]);
            t.inbound == [] && t.z.db == ImportAll(c, d, [Post("x"), Post("y")])
  {
    hide Run, Before, Inside, ImportAll, MessagesOf, Fails, Post, Tossing.Step;
    AfterTheCrash(c, s);
    WholeBundle(c, s, KILLED);
    TwoGos(c, s, KILLED, 3);
    FinishBundle(c, Run(c, s, KILLED), Run(c, s, KILLED + Gos(3)));
  }

  lemma KilledIsAllowed()
    ensures OnlyCrashes(KILLED + Gos(5))
  {
  }

  /** A full area, and a bundle with a duplicate of its oldest message before a new
      one: a run that is killed before the file is marked, and started again, ends
      with other messages than one that is not. */
  lemma CrashShows(c: Config) returns (s: State, evs: seq<Event>)
    requires c.secure
    ensures s.pc.Stopped? && s.inbound == [BUNDLE] && s.z == Spool(FULL, {}, [], []) && OnlyCrashes(evs)
    ensures Run(c, s, evs).inbound == [] && Run(c, s, evs).z.db != TossAll(c, s.z, s.inbound).db
  {
    hide Run, ImportAll, Crowded, Handle, TossAll, MessagesOf, Fails, Post, OnlyCrashes, NewEcho, OldRows;
    s, evs := State(Spool(FULL, {}, [], []), [BUNDLE], Stopped, []), KILLED + Gos(5);
    KilledIsAllowed();
    AfterTheRerun(c, s);
    FullIsCrowded(c);
    CrowdedOut(c, FULL, Post("x"), Post("y"), 1);
    BundleIs();
    OneFile(c, s.z, BUNDLE);
  }
}
