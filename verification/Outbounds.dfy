/**
 Outbound.Queue of internal/ftn/bso.go as steps of several processes and a
 mailer over one node's directory: the busy flag, the packet files, the
 temporary files. Any process may die, or fail, between any two steps.
 */
module Outbounds {
  import opened Text
  import opened Packets
  import opened OutboundPaths

  datatype Job = Job(flavour: Flavour, header: Packet, msgs: seq<PackedMessage>)

  datatype Owner = Nobody | Mailer | Process(pid: nat)

  /** Where a process is in Queue; ticket numbers the calls that got the lock.
      added is what the call puts after the messages already waiting. */
  datatype Pc =
    | Idle
    | HasLock(job: Job, ticket: nat)
    | Loaded(job: Job, ticket: nat, pkt: Packet, added: seq<PackedMessage>)
    | HasTemp(job: Job, ticket: nat, pkt: Packet, added: seq<PackedMessage>, tmp: nat)
    | Written(job: Job, ticket: nat, pkt: Packet, added: seq<PackedMessage>, tmp: nat, now: Stamp)
    | Leaving
    | Dead

  /** The packet a file was written from. */
  datatype Source = Source(packet: Packet, now: Stamp)

  /** One Queue call that reached its rename. */
  datatype Call = Call(ticket: nat, flavour: Flavour, added: seq<PackedMessage>)

  /** lock, files, temps and procs are the real state; source, sent, renamed and
      tickets are its history. */
  datatype Spool = Spool(
    lock: Owner, files: map<Flavour, Bytes>, temps: map<nat, Bytes>, procs: map<nat, Pc>,
    source: map<Flavour, Source>, sent: map<Flavour, seq<PackedMessage>>, renamed: seq<Call>, tickets: nat)

  const EMPTY := Spool(Nobody, map[], map[], map[], map[], map[], [], 0)

  function PcOf(s: Spool, p: nat): Pc { if p in s.procs then s.procs[p] else Idle }

  function Sent(s: Spool, f: Flavour): seq<PackedMessage> { if f in s.sent then s.sent[f] else [] }

  /** The messages in a packet file, as the wire keeps them. */
  function Content(s: Spool, f: Flavour): seq<PackedMessage> {
    if f in s.source then WireAll(s.source[f].packet.messages) else []
  }

  /** The messages of the calls that reached their rename, in that order. */
  function Queued(calls: seq<Call>, f: Flavour): seq<PackedMessage> {
    if calls == [] then []
    else
      var c := calls[|calls| - 1];
      Queued(calls[..|calls| - 1], f) + (if c.flavour == f then WireAll(c.added) else [])
  }

  // ---- steps ----------------------------------------------------------------------

  datatype Act =
    | Lock(pid: nat, job: Job)
    | Load(pid: nat)
    | MakeTemp(pid: nat, tmp: nat)
    | WritePart(pid: nat, now: Stamp, bytes: nat)
    | WriteAll(pid: nat, now: Stamp)
    | Rename(pid: nat)
    | Fail(pid: nat)
    | Unlock(pid: nat)
    | Die(pid: nat)
    | MailerLock
    | MailerSend(flavour: Flavour)
    | MailerUnlock
    | BreakLock

  function SetPc(s: Spool, p: nat, pc: Pc): Spool { s.(procs := s.procs[p := pc]) }

  /** The O_EXCL create: a flag that is there means ErrBusy, and nothing changes. */
  function DoLock(s: Spool, p: nat, job: Job): Spool {
    if PcOf(s, p).Idle? && s.lock == Nobody then
      SetPc(s, p, HasLock(job, s.tickets)).(lock := Process(p), tickets := s.tickets + 1)
    else s
  }

  /** Read the waiting packet, or start from the header; an unreadable packet
      ends the call. */
  function DoLoad(s: Spool, p: nat): Spool {
    match PcOf(s, p)
    case HasLock(job, ticket) =>
      if job.flavour in s.files then
        (match ReadPacket(s.files[job.flavour])
         case NotPacket => SetPc(s, p, Leaving)
         case Read(existing, err) =>
           if err != NoError then SetPc(s, p, Leaving)
           else SetPc(s, p, Loaded(job, ticket, existing.(messages := existing.messages + job.msgs), job.msgs)))
      else
        var all := job.header.messages + job.msgs;
        SetPc(s, p, Loaded(job, ticket, job.header.(messages := all), all))
    case _ => s
  }

  function DoMakeTemp(s: Spool, p: nat, tmp: nat): Spool {
    match PcOf(s, p)
    case Loaded(job, ticket, pkt, added) =>
      if tmp in s.temps then s
      else SetPc(s, p, HasTemp(job, ticket, pkt, added, tmp)).(temps := s.temps[tmp := ""])
    case _ => s
  }

  function DoWritePart(s: Spool, p: nat, now: Stamp, bytes: nat): Spool {
    match PcOf(s, p)
    case HasTemp(job, ticket, pkt, added, tmp) =>
      var b := PacketBytes(pkt, now);
      if bytes <= |b| then s.(temps := s.temps[tmp := b[..bytes]]) else s
    case _ => s
  }

  function DoWriteAll(s: Spool, p: nat, now: Stamp): Spool {
    match PcOf(s, p)
    case HasTemp(job, ticket, pkt, added, tmp) =>
      SetPc(s, p, Written(job, ticket, pkt, added, tmp, now)).(temps := s.temps[tmp := PacketBytes(pkt, now)])
    case _ => s
  }

  function DoRename(s: Spool, p: nat): Spool {
    match PcOf(s, p)
    case Written(job, ticket, pkt, added, tmp, now) =>
      if tmp !in s.temps then s
      else
        SetPc(s, p, Leaving).(
          files := s.files[job.flavour := s.temps[tmp]], temps := s.temps - {tmp},
          source := s.source[job.flavour := Source(pkt, now)],
          renamed := s.renamed + [Call(ticket, job.flavour, added)])
    case _ => s
  }

  /** An I/O error: the deferred removals take the temporary file away. */
  function DoFail(s: Spool, p: nat): Spool {
    match PcOf(s, p)
    case HasLock(_, _) => SetPc(s, p, Leaving)
    case Loaded(_, _, _, _) => SetPc(s, p, Leaving)
    case HasTemp(_, _, _, _, tmp) => SetPc(s, p, Leaving).(temps := s.temps - {tmp})
    case Written(_, _, _, _, tmp, _) => SetPc(s, p, Leaving).(temps := s.temps - {tmp})
    case _ => s
  }

  function DoUnlock(s: Spool, p: nat): Spool {
    if PcOf(s, p).Leaving? then SetPc(s, p, Idle).(lock := Nobody) else s
  }

  /** The mailer, holding the same flag, sends a packet and removes it. */
  function DoSend(s: Spool, f: Flavour): Spool {
    if s.lock == Mailer && f in s.files then
      s.(files := s.files - {f}, source := s.source - {f}, sent := s.sent[f := Sent(s, f) + Content(s, f)])
    else s
  }

  function Step(s: Spool, a: Act): Spool {
    match a
    case Lock(p, job) => DoLock(s, p, job)
    case Load(p) => DoLoad(s, p)
    case MakeTemp(p, tmp) => DoMakeTemp(s, p, tmp)
    case WritePart(p, now, bytes) => DoWritePart(s, p, now, bytes)
    case WriteAll(p, now) => DoWriteAll(s, p, now)
    case Rename(p) => DoRename(s, p)
    case Fail(p) => DoFail(s, p)
    case Unlock(p) => DoUnlock(s, p)
    case Die(p) => SetPc(s, p, Dead)
    case MailerLock => if s.lock == Nobody then s.(lock := Mailer) else s
    case MailerSend(f) => DoSend(s, f)
    case MailerUnlock => if s.lock == Mailer then s.(lock := Nobody) else s
    case BreakLock => if s.lock.Process? && PcOf(s, s.lock.pid).Dead? then s.(lock := Nobody) else s
  }

  function Run(acts: seq<Act>): Spool {
    if acts == [] then EMPTY else Step(Run(acts[..|acts| - 1]), acts[|acts| - 1])
  }

  // ---- the invariant ---------------------------------------------------------------

  predicate Holding(pc: Pc) { !pc.Idle? && !pc.Dead? }

  /** A live process inside Queue owns the busy flag: at most one is. */
  ghost predicate Exclusive(s: Spool) {
    forall p :: p in s.procs && Holding(s.procs[p]) ==> s.lock == Process(p)
  }

  /** Every packet file is a whole written packet. */
  ghost predicate Whole(s: Spool) {
    s.source.Keys == s.files.Keys
    && forall f :: f in s.files ==> s.files[f] == PacketBytes(s.source[f].packet, s.source[f].now)
  }

  ghost predicate Conserved(s: Spool) {
    forall f :: Sent(s, f) + Content(s, f) == Queued(s.renamed, f)
  }

  /** A call on its way keeps what waits and puts its own messages after it. */
  ghost predicate OnTrack(s: Spool, pc: Pc) {
    && (pc.Loaded? || pc.HasTemp? || pc.Written? ==>
          WireAll(pc.pkt.messages) == Content(s, pc.job.flavour) + WireAll(pc.added))
    && (pc.Written? ==> pc.tmp in s.temps && s.temps[pc.tmp] == PacketBytes(pc.pkt, pc.now))
    && (pc.HasLock? || pc.Loaded? || pc.HasTemp? || pc.Written? ==> Later(s, pc.ticket))
  }

  /** A ticket given out after those of every call renamed so far. */
  ghost predicate Later(s: Spool, ticket: nat) {
    ticket < s.tickets && forall i :: 0 <= i < |s.renamed| ==> s.renamed[i].ticket < ticket
  }

  ghost predicate OncePerCall(s: Spool) {
    && (forall i :: 0 <= i < |s.renamed| ==> s.renamed[i].ticket < s.tickets)
    && (forall i, j :: 0 <= i < j < |s.renamed| ==> s.renamed[i].ticket < s.renamed[j].ticket)
  }

  ghost predicate Inv(s: Spool) {
    Exclusive(s) && Whole(s) && Conserved(s) && OncePerCall(s)
    && forall p :: p in s.procs ==> OnTrack(s, s.procs[p])
  }

  // ---- it is kept by every step ------------------------------------------------------

  lemma WireConcat(a: seq<PackedMessage>, b: seq<PackedMessage>)
    ensures WireAll(a + b) == WireAll(a) + WireAll(b)
  {
    hide Wire;
  }

  lemma WireTwice(a: seq<PackedMessage>)
    ensures WireAll(WireAll(a)) == WireAll(a)
  {
    hide Wire;
    forall i | 0 <= i < |a| ensures Wire(Wire(a[i])) == Wire(a[i]) {
      WireIdempotent(a[i]);
    }
  }

  lemma QueuedPush(calls: seq<Call>, c: Call, f: Flavour)
    ensures Queued(calls + [c], f) == Queued(calls, f) + (if c.flavour == f then WireAll(c.added) else [])
  {
    assert (calls + [c])[..|calls|] == calls;
  }

  /** What Queue reads is what the file holds, when it reads without error. */
  lemma ExistingRead(src: Source)
    ensures var r := ReadPacket(PacketBytes(src.packet, src.now));
            && r.Read? && (r.err == NoError <==> AllReadable(src.packet.messages))
            && (r.err == NoError || r.err == TooLong)
            && (r.err == NoError ==> r.packet.messages == WireAll(src.packet.messages))
  {
    hide ReadPacket, PacketBytes, Wire, Readable, WireHeader;
    ReadOfWritten(src.packet, src.now);
    DeliveredAll(src.packet.messages);
  }

  lemma LoadKeeps(s: Spool, p: nat)
    requires Inv(s)
    ensures Inv(DoLoad(s, p))
  {
    hide ReadPacket, PacketBytes, Wire, AllReadable, WireAll, Queued;
    var pc := PcOf(s, p);
    if pc.HasLock? {
      var f := pc.job.flavour;
      assert OnTrack(s, pc);
      if f in s.files {
        ExistingRead(s.source[f]);
        var existing := ReadPacket(s.files[f]).packet;
        WireConcat(existing.messages, pc.job.msgs);
        WireTwice(s.source[f].packet.messages);
      } else {
        var all := pc.job.header.messages + pc.job.msgs;
        assert Content(s, f) + WireAll(all) == WireAll(all);
      }
      SamePlans(s, DoLoad(s, p), p);
    }
  }

  /** A step that changes only p's place, and its own temporary file, leaves
      everybody else on track. */
  lemma SamePlans(s: Spool, t: Spool, p: nat)
    requires Inv(s) && t.source == s.source && t.files == s.files && t.renamed == s.renamed && t.sent == s.sent
    requires t.tickets == s.tickets && t.lock == s.lock
    requires p in t.procs && t.procs == s.procs[p := t.procs[p]]
    requires forall i :: i in s.temps && (PcOf(s, p).HasTemp? || PcOf(s, p).Written? ==> i != PcOf(s, p).tmp) ==>
                           i in t.temps && t.temps[i] == s.temps[i]
    requires Holding(PcOf(s, p))
    requires OnTrack(t, t.procs[p])
    ensures Inv(t)
  {
    hide ReadPacket, PacketBytes, WireAll, Queued;
    assert forall f :: Content(t, f) == Content(s, f) && Sent(t, f) == Sent(s, f);
    forall q | q in t.procs ensures OnTrack(t, t.procs[q]) {
      if q != p {
        assert OnTrack(s, s.procs[q]);
        assert !Holding(s.procs[q]);
      }
    }
  }

  lemma TempKeeps(s: Spool, p: nat, tmp: nat, now: Stamp, bytes: nat)
    requires Inv(s)
    ensures Inv(DoMakeTemp(s, p, tmp)) && Inv(DoWritePart(s, p, now, bytes)) && Inv(DoWriteAll(s, p, now))
  {
    hide ReadPacket, PacketBytes, WireAll, Queued;
    var pc := PcOf(s, p);
    if pc.Loaded? && tmp !in s.temps {
      assert OnTrack(s, pc);
      SamePlans(s, DoMakeTemp(s, p, tmp), p);
    }
    if pc.HasTemp? {
      assert OnTrack(s, pc);
      SamePlans(s, DoWriteAll(s, p, now), p);
      if bytes <= |PacketBytes(pc.pkt, now)| {
        var t := DoWritePart(s, p, now, bytes);
        assert t.procs == s.procs[p := pc];
        SamePlans(s, t, p);
      }
    }
  }

  lemma FailKeeps(s: Spool, p: nat)
    requires Inv(s)
    ensures Inv(DoFail(s, p))
  {
    hide ReadPacket, PacketBytes, WireAll, Queued;
    var pc := PcOf(s, p);
    if pc.HasLock? || pc.Loaded? || pc.HasTemp? || pc.Written? {
      SamePlans(s, DoFail(s, p), p);
    }
  }

  lemma RenameKeeps(s: Spool, p: nat)
    requires Inv(s)
    ensures Inv(DoRename(s, p))
  {
    hide ReadPacket, PacketBytes, WireAll, Queued;
    var pc := PcOf(s, p);
    if pc.Written? {
      var t := DoRename(s, p);
      var c := Call(pc.ticket, pc.job.flavour, pc.added);
      assert OnTrack(s, pc);
      assert t.renamed == s.renamed + [c];
      forall f ensures Sent(t, f) + Content(t, f) == Queued(t.renamed, f) {
        QueuedPush(s.renamed, c, f);
        assert Sent(s, f) + Content(s, f) == Queued(s.renamed, f);
        if f == pc.job.flavour {
          Assoc(Sent(s, f), Content(s, f), WireAll(pc.added));
        } else {
          assert Queued(s.renamed, f) + [] == Queued(s.renamed, f);
        }
      }
      forall q | q in t.procs ensures OnTrack(t, t.procs[q]) {
        if q != p {
          assert !Holding(s.procs[q]);
        }
      }
    }
  }

  lemma LockKeeps(s: Spool, p: nat, job: Job)
    requires Inv(s)
    ensures Inv(DoLock(s, p, job))
  {
    hide ReadPacket, PacketBytes, WireAll, Queued, Whole, Conserved;
    OthersOnTrack(s, DoLock(s, p, job), p);
  }

  lemma UnlockKeeps(s: Spool, p: nat)
    requires Inv(s)
    ensures Inv(DoUnlock(s, p))
  {
    hide ReadPacket, PacketBytes, WireAll, Queued, Whole, Conserved, OncePerCall;
    OthersOnTrack(s, DoUnlock(s, p), p);
  }

  lemma DieKeeps(s: Spool, p: nat)
    requires Inv(s)
    ensures Inv(SetPc(s, p, Dead))
  {
    hide ReadPacket, PacketBytes, WireAll, Queued, Whole, Conserved, OncePerCall;
    OthersOnTrack(s, SetPc(s, p, Dead), p);
  }

  /** The flag changes hands while no process holds it. */
  lemma FlagKeeps(s: Spool, owner: Owner)
    requires Inv(s) && forall p :: p in s.procs ==> !Holding(s.procs[p])
    ensures Inv(s.(lock := owner))
  {
    hide ReadPacket, PacketBytes, WireAll, Queued;
    var t := s.(lock := owner);
    assert forall f :: Content(t, f) == Content(s, f) && Sent(t, f) == Sent(s, f);
    forall q | q in t.procs ensures OnTrack(t, t.procs[q]) {
      assert OnTrack(s, s.procs[q]);
    }
  }

  /** A step that changes no file and gives no rename: conservation is as it was,
      and whoever is not p is as far as before. */
  lemma OthersOnTrack(s: Spool, t: Spool, p: nat)
    requires Inv(s) && t.source == s.source && t.files == s.files && t.temps == s.temps && t.renamed == s.renamed
    requires t.sent == s.sent && t.tickets >= s.tickets
    requires forall q :: q in t.procs && q != p ==> q in s.procs && t.procs[q] == s.procs[q]
    ensures Whole(t) && Conserved(t) && OncePerCall(t)
    ensures forall q :: q in t.procs && q != p ==> OnTrack(t, t.procs[q])
  {
    hide ReadPacket, PacketBytes, WireAll, Queued;
    assert forall f :: Content(t, f) == Content(s, f) && Sent(t, f) == Sent(s, f);
    forall q | q in t.procs && q != p ensures OnTrack(t, t.procs[q]) {
      assert OnTrack(s, s.procs[q]);
    }
  }

  lemma SendKeeps(s: Spool, f: Flavour)
    requires Inv(s)
    ensures Inv(DoSend(s, f))
  {
    hide ReadPacket, PacketBytes, WireAll, Queued;
    if s.lock == Mailer && f in s.files {
      var t := DoSend(s, f);
      forall g ensures Sent(t, g) + Content(t, g) == Queued(t.renamed, g) {
        assert Sent(s, g) + Content(s, g) == Queued(s.renamed, g);
        assert g == f ==> Sent(t, g) + [] == Sent(t, g);
      }
      forall q | q in t.procs ensures OnTrack(t, t.procs[q]) {
        assert !Holding(s.procs[q]);
      }
    }
  }

  lemma StepKeeps(s: Spool, a: Act)
    requires Inv(s)
    ensures Inv(Step(s, a))
  {
    hide ReadPacket, PacketBytes, WireAll, Queued;
    match a
    case Lock(p, job) => LockKeeps(s, p, job);
    case Load(p) => LoadKeeps(s, p);
    case MakeTemp(p, tmp) => TempKeeps(s, p, tmp, Stamp(0, 0, 0, 0, 0, 0), 0);
    case WritePart(p, now, bytes) => TempKeeps(s, p, 0, now, bytes);
    case WriteAll(p, now) => TempKeeps(s, p, 0, now, 0);
    case Rename(p) => RenameKeeps(s, p);
    case Fail(p) => FailKeeps(s, p);
    case Unlock(p) => UnlockKeeps(s, p);
    case Die(p) => DieKeeps(s, p);
    case MailerSend(f) => SendKeeps(s, f);
    case MailerLock =>
      if s.lock == Nobody {
        FlagKeeps(s, Mailer);
      }
    case MailerUnlock =>
      if s.lock == Mailer {
        FlagKeeps(s, Nobody);
      }
    case BreakLock =>
      if s.lock.Process? && PcOf(s, s.lock.pid).Dead? {
        FlagKeeps(s, Nobody);
      }
  }

  // ---- main results -------------------------------------------------------------------

  lemma {:induction false} RunKeeps(acts: seq<Act>)
    ensures Inv(Run(acts))
  {
    hide ReadPacket, PacketBytes, WireAll, Step;
    if acts == [] {
      assert forall f :: Sent(EMPTY, f) + Content(EMPTY, f) == Queued([], f);
    } else {
      RunKeeps(acts[..|acts| - 1]);
      StepKeeps(Run(acts[..|acts| - 1]), acts[|acts| - 1]);
    }
  }

  /** Conservation, over every interleaving, failure and death: what the mailer
      has sent and what still waits are together exactly the messages of the
      calls that reached their rename, once each and in that order. */
  lemma Conservation(acts: seq<Act>, f: Flavour)
    ensures var s := Run(acts);
            && Sent(s, f) + Content(s, f) == Queued(s.renamed, f)
            && (forall i, j :: 0 <= i < j < |s.renamed| ==> s.renamed[i].ticket < s.renamed[j].ticket)
  {
    hide WireAll, Step, Run;
    RunKeeps(acts);
    assert Conserved(Run(acts));
  }

  /** Nobody ever reads a partial packet: whatever has happened, a packet file
      that is there reads without error, unless a message in it is over a
      reader's own bound, and holds exactly the messages that wait. */
  lemma NeverPartial(acts: seq<Act>, f: Flavour)
    requires f in Run(acts).files
    ensures var s := Run(acts);
            var r := ReadPacket(s.files[f]);
            && f in s.source && r.Read? && (r.err == NoError || r.err == TooLong)
            && (r.err == NoError ==> r.packet.messages == Content(s, f))
            && (r.err == NoError <==> AllReadable(s.source[f].packet.messages))
  {
    hide WireAll, Step, Run, ReadPacket, PacketBytes, AllReadable, Conserved, OncePerCall, Exclusive, OnTrack;
    RunKeeps(acts);
    ExistingRead(Run(acts).source[f]);
  }

  /** Two live processes are never inside Queue at once, and none is while the
      mailer has the flag. */
  lemma OneAtATime(acts: seq<Act>, p: nat, q: nat)
    requires Holding(PcOf(Run(acts), p)) && Holding(PcOf(Run(acts), q))
    ensures p == q && Run(acts).lock == Process(p)
  {
    hide WireAll, Step, Run, Conserved, Whole, OncePerCall, OnTrack;
    RunKeeps(acts);
  }

  // ---- one call on its own ----------------------------------------------------------------

  datatype Outcome = Done | ErrBusy | ErrUnreadable

  /** Whether Queue finds no packet waiting, or one it can read. */
  predicate QueueReads(files: map<Flavour, Bytes>, job: Job) {
    job.flavour in files ==>
      var r := ReadPacket(files[job.flavour]);
      r.Read? && r.err == NoError
  }

  /** The packet a call writes: what waits already, then its own messages. */
  function QueuePacket(files: map<Flavour, Bytes>, job: Job): Packet
    requires QueueReads(files, job)
  {
    var base := if job.flavour in files then ReadPacket(files[job.flavour]).packet else job.header;
    base.(messages := base.messages + job.msgs)
  }

  /** What a whole Queue call does to the files when nothing fails. */
  function QueueFiles(files: map<Flavour, Bytes>, job: Job, now: Stamp): map<Flavour, Bytes> {
    if QueueReads(files, job) then files[job.flavour := PacketBytes(QueuePacket(files, job), now)] else files
  }

  /** The six steps of an undisturbed call. */
  function WholeCall(s: Spool, p: nat, job: Job, tmp: nat, now: Stamp): Spool {
    DoUnlock(DoRename(DoWriteAll(DoMakeTemp(DoLoad(DoLock(s, p, job), p), p, tmp), p, now), p), p)
  }

  lemma TempWritten(s: Spool, p: nat, tmp: nat, now: Stamp)
    requires PcOf(s, p).Loaded? && tmp !in s.temps
    ensures var t := DoWriteAll(DoMakeTemp(s, p, tmp), p, now); var pc := PcOf(s, p);
            && t.files == s.files && t.temps == s.temps[tmp := PacketBytes(pc.pkt, now)]
            && PcOf(t, p) == Written(pc.job, pc.ticket, pc.pkt, pc.added, tmp, now)
  {
    hide ReadPacket, PacketBytes, WireAll;
  }

  lemma WrittenCall(s: Spool, p: nat, tmp: nat, now: Stamp)
    requires PcOf(s, p).Loaded? && tmp !in s.temps
    ensures var t := DoUnlock(DoRename(DoWriteAll(DoMakeTemp(s, p, tmp), p, now), p), p);
            t.files == s.files[PcOf(s, p).job.flavour := PacketBytes(PcOf(s, p).pkt, now)] && t.temps == s.temps
            && t.lock == Nobody
  {
    hide ReadPacket, PacketBytes, WireAll, DoMakeTemp, DoWriteAll;
    TempWritten(s, p, tmp, now);
    assert s.temps[tmp := PacketBytes(PcOf(s, p).pkt, now)] - {tmp} == s.temps;
  }

  lemma RefusedCall(s: Spool, p: nat, tmp: nat, now: Stamp)
    requires PcOf(s, p).Leaving?
    ensures var t := DoUnlock(DoRename(DoWriteAll(DoMakeTemp(s, p, tmp), p, now), p), p);
            t.files == s.files && t.temps == s.temps && t.lock == Nobody
  {
    hide ReadPacket, PacketBytes, WireAll;
  }

  lemma LoadedCall(s: Spool, p: nat, job: Job)
    requires PcOf(s, p).Idle? && s.lock == Nobody
    ensures var t := DoLoad(DoLock(s, p, job), p);
            && t.files == s.files && t.temps == s.temps
            && if QueueReads(s.files, job) then PcOf(t, p).Loaded? && PcOf(t, p).job == job && PcOf(t, p).pkt == QueuePacket(s.files, job)
               else PcOf(t, p).Leaving?
  {
    hide ReadPacket, PacketBytes, WireAll;
  }

  /** The steps of an undisturbed call do to the files what the call as a whole
      is said to do. */
  lemma WholeCallFiles(s: Spool, p: nat, job: Job, tmp: nat, now: Stamp)
    requires PcOf(s, p).Idle? && s.lock == Nobody && tmp !in s.temps
    ensures var t := WholeCall(s, p, job, tmp, now);
            t.files == QueueFiles(s.files, job, now) && t.temps == s.temps && t.lock == Nobody
  {
    hide ReadPacket, PacketBytes, WireAll, DoLoad, DoLock, DoMakeTemp, DoWriteAll, DoRename, DoUnlock, QueueReads, QueuePacket;
    LoadedCall(s, p, job);
    var s2 := DoLoad(DoLock(s, p, job), p);
    if QueueReads(s.files, job) {
      WrittenCall(s2, p, tmp, now);
    } else {
      RefusedCall(s2, p, tmp, now);
    }
  }

  // ---- Queue as the program writes it ----------------------------------------------------------

  /** One node's directory in the outbound tree. */
  class Directory {
    var busy: bool
    var files: map<Flavour, Bytes>
    var temps: map<nat, Bytes>

    constructor ()
      ensures !busy && files == map[] && temps == map[]
    {
      busy, files, temps := false, map[], map[];
    }

    /** tmp is the name os.CreateTemp picks. */
    method Queue(job: Job, now: Stamp, tmp: nat) returns (r: Outcome)
      requires tmp !in temps
      modifies this
      ensures r == if old(busy) then ErrBusy else if QueueReads(old(files), job) then Done else ErrUnreadable
      ensures files == if old(busy) then old(files) else QueueFiles(old(files), job, now)
      ensures busy == old(busy) && temps == old(temps)
    {
      hide ReadPacket, PacketBytes;
      if busy {
        return ErrBusy;
      }
      busy := true;
      var pkt := job.header;
      if job.flavour in files {
        match ReadPacket(files[job.flavour]) {
          case NotPacket =>
            busy := false;
            return ErrUnreadable;
          case Read(existing, err) =>
            if err != NoError {
              busy := false;
              return ErrUnreadable;
            }
            pkt := existing;
        }
      }
      pkt := pkt.(messages := pkt.messages + job.msgs);
      ghost var before := temps;
      temps := temps[tmp := PacketBytes(pkt, now)];
      files := files[job.flavour := temps[tmp]];
      temps := temps - {tmp};
      assert temps == before;
      busy := false;
      return Done;
    }
  }
}
