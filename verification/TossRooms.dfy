/**
 A condition for repeatable imports that can be counted beforehand: the messages a
 file brings to each area, and to the netmail box, find room beside what is there.
 */
module TossRooms {
  import opened Text
  import opened Addresses
  import M = Messages
  import opened FtnStore
  import opened Tossing
  import opened TossCrashes

  predicate TakesEcho(c: Config, m: M.Message) { m.area != "" && c.secure && IsTag(EchoTag(m)) }

  /** The rows an area has; none when there is no such area yet. */
  function RowsOf(db: Db, tag: Bytes): nat {
    if HasArea(db.areas, tag) then |InArea(db.echo, AreaId(db.areas, tag))| else 0
  }

  function EchoCount(c: Config, ms: seq<M.Message>, tag: Bytes): nat {
    if ms == [] then 0
    else
      var k := |ms| - 1;
      EchoCount(c, ms[..k], tag) + if TakesEcho(c, ms[k]) && EchoTag(ms[k]) == tag then 1 else 0
  }

  function NetCount(c: Config, ms: seq<M.Message>): nat {
    if ms == [] then 0
    else
      var k := |ms| - 1;
      NetCount(c, ms[..k]) + if ms[k].area == "" && IsOwn(c, ms[k].dest) then 1 else 0
  }

  ghost predicate AreasHold(c: Config, db: Db, ms: seq<M.Message>) {
    forall tag: Bytes :: RowsOf(db, tag) + EchoCount(c, ms, tag) <= MAX_ECHO
  }

  ghost predicate BoxHolds(c: Config, db: Db, ms: seq<M.Message>) { |db.netmail| + NetCount(c, ms) <= MAX_NETMAIL }

  // ---- areas and their numbers ---------------------------------------------------------

  lemma TagOfId(areas: seq<Area>, a: Area, b: Area)
    requires AreasOrdered(areas) && a in areas && b in areas
    ensures a.id == b.id <==> a == b
    ensures a.tag == b.tag <==> a == b
  {
  }

  lemma {:induction false} SameId(areas: seq<Area>, more: seq<Area>, tag: Bytes)
    requires HasArea(areas, tag)
    ensures AreaId(areas + more, tag) == AreaId(areas, tag) && HasArea(areas + more, tag)
    decreases |areas|
  {
    var a :| a in areas && a.tag == tag;
    assert a in areas + more;
    if areas[0].tag != tag {
      assert a in areas[1..] && (areas + more)[1..] == areas[1..] + more;
      SameId(areas[1..], more, tag);
    }
  }

  lemma {:induction false} NoSuchRows(rows: seq<EchoRow>, id: nat)
    requires forall r :: r in rows ==> r.area != id
    ensures InArea(rows, id) == []
    decreases |rows|
  {
    if rows != [] {
      assert rows[0] in rows;
      NoSuchRows(rows[1..], id);
    }
  }

  /** A new area's number is no area's yet. */
  lemma NewIdIsNew(areas: seq<Area>, tag: Bytes)
    requires AreasOrdered(areas) && !HasArea(areas, tag)
    ensures !HasAreaId(areas, AreaId(WithArea(areas, tag), tag))
  {
    var w := WithArea(areas, tag);
    assert w[|w| - 1].tag == tag && w[|w| - 1] in w;
    AreaIdIn(w, tag);
    assert Area(AreaId(w, tag), tag) == w[|w| - 1];
  }

  // ---- one import ----------------------------------------------------------------------------

  lemma EchoFinds(db: Db, m: M.Message)
    requires DbInv(db) && RowsOf(db, EchoTag(m)) < MAX_ECHO
    ensures |InArea(db.echo, NewEcho(db, m).area)| == RowsOf(db, EchoTag(m)) && EchoFits(db, m)
  {
    hide KeyOf, InArea, IsTag, EchoTag, NewEcho, WithArea, AreaId, ImportEcho, EchoOrdered, NetOrdered, AreasOrdered, HasArea;
    NewHasArea(db, m);
    if HasArea(db.areas, EchoTag(m)) {
      NoNewArea(db.areas, EchoTag(m));
    } else {
      NewIdIsNew(db.areas, EchoTag(m));
      NoSuchRows(db.echo, NewEcho(db, m).area);
    }
  }

  lemma NoNewArea(areas: seq<Area>, tag: Bytes)
    requires HasArea(areas, tag)
    ensures WithArea(areas, tag) == areas
  {
  }

  lemma RowsAfter(db: Db, m: M.Message, tag: Bytes)
    requires DbInv(db) && RowsOf(db, EchoTag(m)) < MAX_ECHO && ImportEcho(db, m).result == Stored
    ensures RowsOf(ImportEcho(db, m).db, tag) == RowsOf(db, tag) + if tag == EchoTag(m) then 1 else 0
  {
    hide KeyOf, InArea, IsTag, EchoTag, NewEcho, WithArea, AreaId, EchoOrdered, NetOrdered, AreasOrdered, HasArea, HasEcho, PruneArea;
    var t, own := ImportEcho(db, m).db, EchoTag(m);
    EchoFinds(db, m);
    NewHasArea(db, m);
    AreaPushed(db.areas, own);
    IdAfter(db.areas, own, tag);
    if HasArea(t.areas, tag) {
      EchoKeepsNewest(db, m, AreaId(t.areas, tag));
    }
  }

  lemma IdAfter(areas: seq<Area>, own: Bytes, tag: Bytes)
    requires AreasOrdered(areas)
    ensures var w := WithArea(areas, own);
            && (HasArea(w, tag) <==> HasArea(areas, tag) || tag == own)
            && (HasArea(areas, tag) ==> AreaId(w, tag) == AreaId(areas, tag))
            && (HasArea(w, tag) ==> (AreaId(w, tag) == AreaId(w, own) <==> tag == own))
  {
    hide AreaId, AreasOrdered;
    var w := WithArea(areas, own);
    AreaPushed(areas, own);
    if HasArea(areas, tag) {
      SameId(areas, w[|areas|..], tag);
      assert w == areas + w[|areas|..];
    }
    AreaIdIn(w, own);
    if HasArea(w, tag) {
      AreaIdIn(w, tag);
      TagOfId(w, Area(AreaId(w, tag), tag), Area(AreaId(w, own), own));
    }
  }

  // ---- a file --------------------------------------------------------------------------------------

  lemma {:induction false} CountGrows(c: Config, ms: seq<M.Message>, k: nat, tag: Bytes)
    requires k <= |ms|
    ensures EchoCount(c, ms[..k], tag) <= EchoCount(c, ms, tag) && NetCount(c, ms[..k]) <= NetCount(c, ms)
    decreases |ms|
  {
    hide TakesEcho, IsOwn, EchoTag;
    if k == |ms| {
      assert ms[..k] == ms;
    } else {
      assert ms[..|ms| - 1][..k] == ms[..k];
      CountGrows(c, ms[..|ms| - 1], k, tag);
    }
  }

  /** After some messages each area and the box have at most those rows more. */
  ghost predicate Within(c: Config, db: Db, ms: seq<M.Message>, d: Db) {
    && DbInv(d) && (forall tag: Bytes :: RowsOf(d, tag) <= RowsOf(db, tag) + EchoCount(c, ms, tag))
    && |d.netmail| <= |db.netmail| + NetCount(c, ms)
  }

  lemma CountNext(c: Config, ms: seq<M.Message>, k: nat, tag: Bytes)
    requires k < |ms|
    ensures EchoCount(c, ms[..k + 1], tag) == EchoCount(c, ms[..k], tag) + (if TakesEcho(c, ms[k]) && EchoTag(ms[k]) == tag then 1 else 0)
    ensures NetCount(c, ms[..k + 1]) == NetCount(c, ms[..k]) + (if ms[k].area == "" && IsOwn(c, ms[k].dest) then 1 else 0)
  {
    hide TakesEcho, IsOwn, EchoTag;
    var p := ms[..k + 1];
    assert p[..|p| - 1] == ms[..k] && p[|p| - 1] == ms[k];
  }

  lemma FitsNext(c: Config, db: Db, ms: seq<M.Message>, k: nat)
    requires k < |ms| && AreasHold(c, db, ms) && BoxHolds(c, db, ms)
    requires Within(c, db, ms[..k], ImportAll(c, db, ms[..k]))
    ensures HandleFits(c, ImportAll(c, db, ms[..k]), ms[k])
    ensures TakesEcho(c, ms[k]) ==> RowsOf(ImportAll(c, db, ms[..k]), EchoTag(ms[k])) < MAX_ECHO
  {
    hide ImportAll, DbInv, EchoCount, NetCount, RowsOf, IsOwn, EchoTag, IsTag, EchoFits;
    var d, m := ImportAll(c, db, ms[..k]), ms[k];
    CountNext(c, ms, k, EchoTag(m));
    CountGrows(c, ms, k + 1, EchoTag(m));
    assert RowsOf(db, EchoTag(m)) + EchoCount(c, ms, EchoTag(m)) <= MAX_ECHO;
    if TakesEcho(c, m) {
      EchoFinds(d, m);
    } else if m.area != "" && c.secure {
      NoTagFits(d, m);
    }
  }

  lemma NoTagFits(db: Db, m: M.Message)
    requires !IsTag(EchoTag(m))
    ensures EchoFits(db, m)
  {
    hide IsTag, EchoTag;
  }

  lemma WithinNext(c: Config, db: Db, ms: seq<M.Message>, k: nat)
    requires k < |ms| && Within(c, db, ms[..k], ImportAll(c, db, ms[..k]))
    requires HandleFits(c, ImportAll(c, db, ms[..k]), ms[k])
    requires TakesEcho(c, ms[k]) ==> RowsOf(ImportAll(c, db, ms[..k]), EchoTag(ms[k])) < MAX_ECHO
    ensures Within(c, db, ms[..k + 1], ImportAll(c, db, ms[..k + 1]))
  {
    hide ImportAll, DbInv, EchoCount, NetCount, RowsOf, IsOwn, EchoTag, IsTag, HandleFits, Handle;
    var d, m := ImportAll(c, db, ms[..k]), ms[k];
    ImportNext(c, db, ms, k);
    HandleKeepsDb(c, d, m);
    var t := Handle(c, d, m).db;
    OneMoreRow(c, d, m);
    CountNext(c, ms, k, "");
    forall tag: Bytes ensures RowsOf(t, tag) <= RowsOf(db, tag) + EchoCount(c, ms[..k + 1], tag) {
      CountNext(c, ms, k, tag);
      assert RowsOf(d, tag) <= RowsOf(db, tag) + EchoCount(c, ms[..k], tag);
    }
  }

  lemma OneMoreRow(c: Config, d: Db, m: M.Message)
    requires DbInv(d) && HandleFits(c, d, m) && (TakesEcho(c, m) ==> RowsOf(d, EchoTag(m)) < MAX_ECHO)
    ensures var t := Handle(c, d, m).db;
            && (forall tag: Bytes :: RowsOf(t, tag) <= RowsOf(d, tag) + if TakesEcho(c, m) && EchoTag(m) == tag then 1 else 0)
            && |t.netmail| <= |d.netmail| + if m.area == "" && IsOwn(c, m.dest) then 1 else 0
  {
    hide DbInv, IsOwn, EchoTag, ImportEcho, ImportNetmail, EchoFits, NetmailFits, IsTag, InArea, AreaId, HasArea;
    if m.area == "" {
      if IsOwn(c, m.dest) {
        NetmailAdds(d, m);
      }
    } else if c.secure {
      if IsTag(EchoTag(m)) {
        EchoAdds(d, m);
        forall tag: Bytes ensures RowsOf(Handle(c, d, m).db, tag) <= RowsOf(d, tag) + if EchoTag(m) == tag then 1 else 0 {
          if ImportEcho(d, m).result == Stored {
            RowsAfter(d, m, tag);
          } else {
            NotStored(d, m);
          }
        }
      } else {
        NoTagStays(d, m);
      }
    }
  }

  lemma NotStored(db: Db, m: M.Message)
    requires ImportEcho(db, m).result != Stored
    ensures ImportEcho(db, m).db == db
  {
    hide KeyOf, IsTag, EchoTag, NewEcho, WithArea, PruneArea, HasEcho;
  }

  lemma NoTagStays(db: Db, m: M.Message)
    requires !IsTag(EchoTag(m))
    ensures ImportEcho(db, m).db == db
  {
    hide IsTag, EchoTag;
  }

  lemma {:induction false} PrefixWithin(c: Config, db: Db, ms: seq<M.Message>, k: nat)
    requires DbInv(db) && AreasHold(c, db, ms) && BoxHolds(c, db, ms) && k <= |ms|
    ensures Within(c, db, ms[..k], ImportAll(c, db, ms[..k]))
    decreases k
  {
    hide DbInv, ImportAll, Within, HandleFits, RowsOf, AreasHold, BoxHolds;
    if k == 0 {
      NothingIn(c, db, ms);
      NoneYet(c, db, ms);
    } else {
      PrefixWithin(c, db, ms, k - 1);
      FitsNext(c, db, ms, k - 1);
      WithinNext(c, db, ms, k - 1);
    }
  }

  lemma NoneYet(c: Config, db: Db, ms: seq<M.Message>)
    requires DbInv(db)
    ensures Within(c, db, ms[..0], db)
  {
    hide DbInv, RowsOf;
  }

  /** If the rows of each area and the file's messages for it are together at most
      2000, and those of the box at most 1000, importing the file prunes nothing, so a
      crash and a rerun store none of its messages twice. */
  lemma CountIsEnough(c: Config, db: Db, ms: seq<M.Message>)
    requires DbInv(db) && AreasHold(c, db, ms) && BoxHolds(c, db, ms)
    ensures Roomy(c, db, ms) && Repeatable(c, db, ms)
  {
    hide DbInv, ImportAll, Within, HandleFits, RowsOf, AreasHold, BoxHolds, Repeatable;
    forall k: nat | k < |ms| ensures FitsAt(c, db, ms, k) {
      PrefixWithin(c, db, ms, k);
      FitsNext(c, db, ms, k);
    }
    RoomIsEnough(c, db, ms);
  }
}
