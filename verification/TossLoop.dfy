/**
 Tosser.Toss of internal/ftntoss/toss.go as its two loops over the database and the
 directories, and what its counters count.
 */
module TossLoop {
  import opened Text
  import opened Addresses
  import opened Messages
  import opened FtnStore
  import opened Tossing

  datatype Stats = Stats(files: nat, stored: nat, duplicate: nat, skipped: nat, failed: nat, netmail: nat)

  const NO_STATS := Stats(0, 0, 0, 0, 0, 0)

  function CountMessage(c: Config, st: Stats, m: Message, r: TossResult): Stats {
    match r
    case Stored => st.(stored := st.stored + 1, netmail := st.netmail + if m.area == "" && IsOwn(c, m.dest) then 1 else 0)
    case Duplicate => st.(duplicate := st.duplicate + 1)
    case Skipped => st.(skipped := st.skipped + 1)
  }

  function CountAll(c: Config, st: Stats, db: Db, ms: seq<Message>): Stats {
    if ms == [] then st
    else
      var k := |ms| - 1;
      CountMessage(c, CountAll(c, st, db, ms[..k]), ms[k], Handle(c, ImportAll(c, db, ms[..k]), ms[k]).result)
  }

  function CountFile(c: Config, st: Stats, z: Spool, e: Entry): Stats {
    if e.file in z.ledger then st
    else if Fails(e.file) then st.(files := st.files + 1, failed := st.failed + 1)
    else CountAll(c, st.(files := st.files + 1), z.db, MessagesOf(e.file.parts))
  }

  function CountFiles(c: Config, z: Spool, es: seq<Entry>): Stats {
    if es == [] then NO_STATS
    else
      var k := |es| - 1;
      CountFile(c, CountFiles(c, z, es[..k]), TossAll(c, z, es[..k]), es[k])
  }

  /** The messages of the files that were tossed. */
  function Tossed(c: Config, z: Spool, es: seq<Entry>): nat {
    if es == [] then 0
    else
      var k := |es| - 1;
      Tossed(c, z, es[..k])
      + if es[k].file in TossAll(c, z, es[..k]).ledger || Fails(es[k].file) then 0 else |MessagesOf(es[k].file.parts)|
  }

  lemma {:induction false} MessagesAddUp(c: Config, st: Stats, db: Db, ms: seq<Message>)
    ensures var t := CountAll(c, st, db, ms);
            && t.stored + t.duplicate + t.skipped == st.stored + st.duplicate + st.skipped + |ms|
            && t.files == st.files && t.failed == st.failed
            && t.netmail - st.netmail <= t.stored - st.stored
    decreases |ms|
  {
    hide Handle, ImportAll, IsOwn;
    if ms != [] {
      MessagesAddUp(c, st, db, ms[..|ms| - 1]);
    }
  }

  lemma FileAddsUp(c: Config, st: Stats, z: Spool, e: Entry)
    ensures var t, u := TossOne(c, z, e), CountFile(c, st, z, e);
            && |t.done| - |z.done| + u.failed - st.failed == 1
            && |t.bad| - |z.bad| == u.failed - st.failed
            && |t.ledger| - |z.ledger| == u.files - st.files - (u.failed - st.failed)
            && u.stored + u.duplicate + u.skipped - (st.stored + st.duplicate + st.skipped)
               == (if e.file in z.ledger || Fails(e.file) then 0 else |MessagesOf(e.file.parts)|)
            && u.netmail - st.netmail <= u.stored - st.stored
  {
    hide ImportAll, CountAll, Fails, MessagesOf;
    MessagesAddUp(c, st.(files := st.files + 1), z.db, MessagesOf(e.file.parts));
  }

  /** The counters add up: each file went to tossed or bad, each file that was not
      seen before and could be read is new in the ledger, and each of its messages is
      counted once. */
  lemma {:induction false} CountersAddUp(c: Config, z: Spool, es: seq<Entry>)
    ensures var t, st := TossAll(c, z, es), CountFiles(c, z, es);
            && |t.done| == |z.done| + |es| - st.failed
            && |t.bad| == |z.bad| + st.failed
            && |t.ledger| == |z.ledger| + st.files - st.failed
            && st.stored + st.duplicate + st.skipped == Tossed(c, z, es)
            && st.netmail <= st.stored
    decreases |es|
  {
    hide TossOne, CountFile, Fails, MessagesOf;
    if es != [] {
      var k := |es| - 1;
      CountersAddUp(c, z, es[..k]);
      FileAddsUp(c, CountFiles(c, z, es[..k]), TossAll(c, z, es[..k]), es[k]);
    }
  }

  class Node {
    var db: Db
    var ledger: set<File>
    var inbound: seq<Entry>
    var done: seq<Entry>
    var bad: seq<Entry>

    ghost function Value(): Spool
      reads this
    {
      Spool(db, ledger, done, bad)
    }

    /** ftn.EachMessage with the callback that stores: packets that cannot be read are
        passed over, and it fails when there are some and no other. */
    method EachMessage(c: Config, file: File, before: Stats) returns (ok: bool, st: Stats)
      modifies this`db
      ensures ok == !Fails(file)
      ensures ok ==> db == ImportAll(c, old(db), MessagesOf(file.parts))
      ensures ok ==> st == CountAll(c, before, old(db), MessagesOf(file.parts))
      ensures !ok ==> db == old(db) && st == before
    {
      hide Handle, ImportAll, CountAll, IsOwn, MessagesOf, CountMessage;
      var parts := file.parts;
      st := before;
      var lastErr, read := false, 0;
      assert parts[..0] == [];
      NoMessages(c, before, db);
      for i := 0 to |parts|
        invariant db == ImportAll(c, old(db), MessagesOf(parts[..i]))
        invariant st == CountAll(c, before, old(db), MessagesOf(parts[..i]))
        invariant lastErr == (Unreadable in parts[..i])
        invariant read == 0 <==> forall p :: p in parts[..i] ==> p.Unreadable?
        invariant read == 0 ==> db == old(db) && st == before
      {
        assert parts[..i + 1] == parts[..i] + [parts[i]];
        MessagesNext(parts[..i], parts[i]);
        if parts[i].Unreadable? {
          lastErr := true;
        } else {
          read := read + 1;
          ImportConcat(c, before, old(db), MessagesOf(parts[..i]), parts[i].msgs);
          st := EachOf(c, parts[i].msgs, st);
        }
      }
      assert parts[..|parts|] == parts;
      ok := !(read == 0 && lastErr);
    }

    /** The callback over the messages of one packet. */
    method EachOf(c: Config, ms: seq<Message>, before: Stats) returns (st: Stats)
      modifies this`db
      ensures db == ImportAll(c, old(db), ms) && st == CountAll(c, before, old(db), ms)
    {
      hide Handle, ImportAll, CountAll, IsOwn, CountMessage;
      st := before;
      ImportedSoFar(c, before, db, ms, 0);
      for k := 0 to |ms|
        invariant db == ImportAll(c, old(db), ms[..k])
        invariant st == CountAll(c, before, old(db), ms[..k])
      {
        ImportedSoFar(c, before, old(db), ms, k);
        var i := Handle(c, db, ms[k]);
        db := i.db;
        st := CountMessage(c, st, ms[k], i.result);
      }
      assert ms[..|ms|] == ms;
    }

    /** Every file in inbound is tossed, set aside as seen before, or set aside as
        unreadable, in the order of the directory. */
    method Toss(c: Config) returns (st: Stats)
      modifies this
      ensures inbound == []
      ensures Value() == TossAll(c, old(Value()), old(inbound))
      ensures st == CountFiles(c, old(Value()), old(inbound))
    {
      hide Fails, MessagesOf, ImportAll, CountAll, TossOne, CountFile;
      ghost var z := Value();
      var entries := inbound;
      st := NO_STATS;
      TossedSoFar(c, z, entries, 0);
      for j := 0 to |entries|
        invariant inbound == entries[j..]
        invariant Value() == TossAll(c, z, entries[..j])
        invariant st == CountFiles(c, z, entries[..j])
      {
        TossedSoFar(c, z, entries, j);
        var e := entries[j];
        st := One(c, e, st);
      }
      assert entries[..|entries|] == entries;
    }

    method One(c: Config, e: Entry, before: Stats) returns (st: Stats)
      requires inbound != [] && inbound[0] == e
      modifies this
      ensures inbound == old(inbound)[1..]
      ensures Value() == TossOne(c, old(Value()), e) && st == CountFile(c, before, old(Value()), e)
    {
      hide Fails, MessagesOf, ImportAll, CountAll;
      st := before;
      if e.file in ledger {
        done, inbound := done + [e], inbound[1..];
        return;
      }
      st := st.(files := st.files + 1);
      var ok;
      ok, st := EachMessage(c, e.file, st);
      if !ok {
        st := st.(failed := st.failed + 1);
        bad, inbound := bad + [e], inbound[1..];
        return;
      }
      ledger := ledger + {e.file};
      done, inbound := done + [e], inbound[1..];
    }
  }

  lemma ImportedSoFar(c: Config, st: Stats, db: Db, ms: seq<Message>, k: nat)
    requires k <= |ms|
    ensures k == 0 ==> ImportAll(c, db, ms[..0]) == db && CountAll(c, st, db, ms[..0]) == st
    ensures k < |ms| ==>
              var i := Handle(c, ImportAll(c, db, ms[..k]), ms[k]);
              && ImportAll(c, db, ms[..k + 1]) == i.db
              && CountAll(c, st, db, ms[..k + 1]) == CountMessage(c, CountAll(c, st, db, ms[..k]), ms[k], i.result)
  {
    hide Handle, CountMessage;
    if k < |ms| {
      var p := ms[..k + 1];
      assert p[..|p| - 1] == ms[..k] && p[|p| - 1] == ms[k];
    }
  }

  lemma TossedSoFar(c: Config, z: Spool, es: seq<Entry>, j: nat)
    requires j <= |es|
    ensures j == 0 ==> TossAll(c, z, es[..0]) == z && CountFiles(c, z, es[..0]) == NO_STATS
    ensures j < |es| ==>
              && TossAll(c, z, es[..j + 1]) == TossOne(c, TossAll(c, z, es[..j]), es[j])
              && CountFiles(c, z, es[..j + 1]) == CountFile(c, CountFiles(c, z, es[..j]), TossAll(c, z, es[..j]), es[j])
  {
    hide TossOne, CountFile;
    if j < |es| {
      var p := es[..j + 1];
      assert p[..|p| - 1] == es[..j] && p[|p| - 1] == es[j];
    }
  }

  lemma NoMessages(c: Config, st: Stats, db: Db)
    ensures ImportAll(c, db, MessagesOf([])) == db && CountAll(c, st, db, MessagesOf([])) == st
  {
  }

  lemma {:induction false} MessagesNext(ps: seq<Part>, p: Part)
    ensures MessagesOf(ps + [p]) == if p.Readable? then MessagesOf(ps) + p.msgs else MessagesOf(ps)
    decreases |ps|
  {
    if ps == [] {
      assert ps + [p] == [p] && [p][1..] == [];
      assert p.Readable? ==> p.msgs + [] == p.msgs;
    } else {
      assert (ps + [p])[1..] == ps[1..] + [p];
      MessagesNext(ps[1..], p);
      var first := if ps[0].Readable? then ps[0].msgs else [];
      assert p.Readable? ==> first + (MessagesOf(ps[1..]) + p.msgs) == first + MessagesOf(ps[1..]) + p.msgs;
    }
  }

  lemma {:induction false} ImportConcat(c: Config, st: Stats, db: Db, a: seq<Message>, b: seq<Message>)
    ensures ImportAll(c, db, a + b) == ImportAll(c, ImportAll(c, db, a), b)
    ensures CountAll(c, st, db, a + b) == CountAll(c, CountAll(c, st, db, a), ImportAll(c, db, a), b)
    decreases |b|
  {
    hide Handle, CountMessage;
    if b == [] {
      assert a + b == a;
    } else {
      var k := |b| - 1;
      assert (a + b)[..|a + b| - 1] == a + b[..k] && (a + b)[|a + b| - 1] == b[k];
      ImportConcat(c, st, db, a, b[..k]);
    }
  }
}
