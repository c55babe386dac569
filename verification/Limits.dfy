/**
 The sliding-window rate limiter and its saved copy: internal/bbs/limiter.go and
 internal/store/throttle.go. Times are nanoseconds on a clock that never goes
 back; each method reads it once.
 */
module Limits {
  import Text

  const RETENTION: int := 48 * 3600 * 1_000_000_000

  // ---- sequences of times -------------------------------------------------------

  /** The times strictly after a cutoff. */
  function After(s: seq<int>, cutoff: int): seq<int> {
    if s == [] then [] else (if s[0] > cutoff then [s[0]] else []) + After(s[1..], cutoff)
  }

  predicate Ordered(s: seq<int>) { forall i, j :: 0 <= i < j < |s| ==> s[i] <= s[j] }

  lemma {:induction false} AfterConcat(a: seq<int>, b: seq<int>, cutoff: int)
    ensures After(a + b, cutoff) == After(a, cutoff) + After(b, cutoff)
  {
    if a == [] {
      assert a + b == b;
    } else {
      assert (a + b)[1..] == a[1..] + b;
      AfterConcat(a[1..], b, cutoff);
      Text.Assoc(if a[0] > cutoff then [a[0]] else [], After(a[1..], cutoff), After(b, cutoff));
    }
  }

  lemma {:induction false} AfterTwice(s: seq<int>, c: int, d: int)
    requires c <= d
    ensures After(After(s, c), d) == After(s, d)
  {
    if s != [] {
      AfterTwice(s[1..], c, d);
      AfterConcat(if s[0] > c then [s[0]] else [], After(s[1..], c), d);
      if s[0] > c {
        assert [s[0]][1..] == [];
      }
    }
  }

  lemma AfterOne(t: int, cutoff: int)
    ensures After([t], cutoff) == if t > cutoff then [t] else []
  {
    assert [t][1..] == [];
  }

  // ---- the saved copy -----------------------------------------------------------

  datatype Hit = Hit(bucket: string, key: string, at: int)

  function Saved(rows: seq<Hit>, bucket: string, key: string): seq<int> {
    if rows == [] then []
    else (if rows[0].bucket == bucket && rows[0].key == key then [rows[0].at] else []) + Saved(rows[1..], bucket, key)
  }

  /** DELETE ... WHERE at < limit. */
  function Kept(rows: seq<Hit>, limit: int): seq<Hit> {
    if rows == [] then [] else (if rows[0].at >= limit then [rows[0]] else []) + Kept(rows[1..], limit)
  }

  function Without(rows: seq<Hit>, bucket: string, key: string): seq<Hit> {
    if rows == [] then []
    else (if rows[0].bucket == bucket && rows[0].key == key then [] else [rows[0]]) + Without(rows[1..], bucket, key)
  }

  function RecordHit(rows: seq<Hit>, h: Hit): seq<Hit> { Kept(rows + [h], h.at - RETENTION) }

  function Insert(t: int, s: seq<int>): seq<int> {
    if s == [] || t <= s[0] then [t] + s else [s[0]] + Insert(t, s[1..])
  }

  /** ORDER BY at. */
  function Sort(s: seq<int>): seq<int> {
    if s == [] then [] else Insert(s[0], Sort(s[1..]))
  }

  /** at >= since. */
  function Since(s: seq<int>, since: int): seq<int> { After(s, since - 1) }

  function KeysOf(rows: seq<Hit>, bucket: string, since: int): set<string> {
    set i | 0 <= i < |rows| && rows[i].bucket == bucket && rows[i].at >= since :: rows[i].key
  }

  function LoadHits(rows: seq<Hit>, bucket: string, since: int): map<string, seq<int>> {
    map key | key in KeysOf(rows, bucket, since) :: Sort(Since(Saved(rows, bucket, key), since))
  }

  ghost predicate RowsOrdered(rows: seq<Hit>) { forall i, j :: 0 <= i < j < |rows| ==> rows[i].at <= rows[j].at }

  // ---- the limiter ----------------------------------------------------------------

  datatype Swept = Never | Swept(at: int)

  datatype Limiter = Limiter(limit: int, window: nat, bucket: string, hits: map<string, seq<int>>, swept: Swept)

  function Hits(m: map<string, seq<int>>, key: string): seq<int> { if key in m then m[key] else [] }

  /** recent: what is left of key's hits; an empty list is dropped. */
  function Prune(m: map<string, seq<int>>, key: string, cutoff: int): map<string, seq<int>> {
    var kept := After(Hits(m, key), cutoff);
    if kept == [] then m - {key} else m[key := kept]
  }

  function PruneAll(m: map<string, seq<int>>, cutoff: int): map<string, seq<int>> {
    map key | key in m && After(m[key], cutoff) != [] :: After(m[key], cutoff)
  }

  /** sweep: at most once per window, every key. */
  function Sweep(l: Limiter, now: int): Limiter {
    if l.swept.Swept? && now - l.swept.at < l.window then l
    else l.(swept := Swept(now), hits := PruneAll(l.hits, now - l.window))
  }

  function AddHit(l: Limiter, key: string, now: int): Limiter {
    var kept := After(Hits(l.hits, key), now - l.window);
    Sweep(l.(hits := l.hits[key := kept + [now]]), now)
  }

  function Look(l: Limiter, key: string, now: int): Limiter { l.(hits := Prune(l.hits, key, now - l.window)) }

  function Blocked(l: Limiter, key: string, now: int): bool {
    |After(Hits(l.hits, key), now - l.window)| >= l.limit
  }

  datatype Stats = Stats(count: nat, last: int)

  /** How many there are and when the last was; 0 stands for Go's zero time. */
  function StatsOf(recent: seq<int>): Stats {
    if recent == [] then Stats(0, 0) else Stats(|recent|, recent[|recent| - 1])
  }

  function StatsFor(l: Limiter, key: string, now: int): Stats {
    StatsOf(After(Hits(l.hits, key), now - l.window))
  }

  /** newPersistentLimiter. */
  function Restarted(l: Limiter, rows: seq<Hit>, now: int): Limiter {
    l.(hits := LoadHits(rows, l.bucket, now - l.window), swept := Never)
  }

  // ---- whole runs -------------------------------------------------------------------

  /** The limiter, the database, and the history: every hit of this limiter since
      its key's last reset. */
  datatype World = World(lim: Limiter, rows: seq<Hit>, hist: map<string, seq<int>>, clock: int)

  datatype Op =
    | HitAt(key: string, now: int)
    | ResetAt(key: string, now: int)
    | LookAt(key: string, now: int)
    | RestartAt(now: int)
    | ForeignHit(bucket: string, key: string, now: int)
    | ForeignReset(bucket: string, key: string, now: int)

  /** Other limiters share the table, each with a bucket of its own. */
  predicate CanStep(w: World, op: Op) {
    op.now >= w.clock && (op.ForeignHit? || op.ForeignReset? ==> op.bucket != w.lim.bucket)
  }

  function Step(w: World, op: Op): World {
    var v := w.(clock := op.now);
    match op
    case HitAt(key, now) =>
      v.(lim := AddHit(w.lim, key, now), rows := RecordHit(w.rows, Hit(w.lim.bucket, key, now)),
         hist := w.hist[key := Hits(w.hist, key) + [now]])
    case ResetAt(key, now) =>
      v.(lim := w.lim.(hits := w.lim.hits - {key}), rows := Without(w.rows, w.lim.bucket, key), hist := w.hist - {key})
    case LookAt(key, now) => v.(lim := Look(w.lim, key, now))
    case RestartAt(now) => v.(lim := Restarted(w.lim, w.rows, now))
    case ForeignHit(bucket, key, now) => v.(rows := RecordHit(w.rows, Hit(bucket, key, now)))
    case ForeignReset(bucket, key, now) => v.(rows := Without(w.rows, bucket, key))
  }

  function Start(limit: int, window: nat, bucket: string, clock: int): World {
    World(Limiter(limit, window, bucket, map[], Never), [], map[], clock)
  }

  /** The state after ops, and whether each could happen when it did. */
  function Run(w: World, ops: seq<Op>): World {
    if ops == [] then w else Step(Run(w, ops[..|ops| - 1]), ops[|ops| - 1])
  }

  predicate CanRun(w: World, ops: seq<Op>) {
    ops == [] || (CanRun(w, ops[..|ops| - 1]) && CanStep(Run(w, ops[..|ops| - 1]), ops[|ops| - 1]))
  }

  // ---- the invariant ------------------------------------------------------------------

  /** Inside the window, memory and the saved copy agree with the history. */
  ghost predicate Agrees(w: World, key: string) {
    var floor := w.clock - w.lim.window;
    && After(Hits(w.lim.hits, key), floor) == After(Hits(w.hist, key), floor)
    && After(Saved(w.rows, w.lim.bucket, key), floor) == After(Hits(w.hist, key), floor)
  }

  ghost predicate InTime(w: World) {
    && RowsOrdered(w.rows) && (forall i :: 0 <= i < |w.rows| ==> w.rows[i].at <= w.clock)
    && forall key :: Ordered(Hits(w.hist, key)) && forall i :: 0 <= i < |Hits(w.hist, key)| ==> Hits(w.hist, key)[i] <= w.clock
  }

  ghost predicate Inv(w: World) {
    w.lim.window <= RETENTION && InTime(w) && forall key :: Agrees(w, key)
  }

  // ---- lemmas on the saved copy ---------------------------------------------------------

  lemma {:induction false} SavedConcat(a: seq<Hit>, b: seq<Hit>, bucket: string, key: string)
    ensures Saved(a + b, bucket, key) == Saved(a, bucket, key) + Saved(b, bucket, key)
  {
    if a == [] {
      assert a + b == b;
    } else {
      assert (a + b)[1..] == a[1..] + b;
      SavedConcat(a[1..], b, bucket, key);
      Text.Assoc(if a[0].bucket == bucket && a[0].key == key then [a[0].at] else [], Saved(a[1..], bucket, key), Saved(b, bucket, key));
    }
  }

  lemma SavedOne(h: Hit, bucket: string, key: string)
    ensures Saved([h], bucket, key) == if h.bucket == bucket && h.key == key then [h.at] else []
  {
    assert [h][1..] == [];
  }

  /** Dropping rows older than limit changes nothing a later cutoff lets through. */
  lemma {:induction false} SavedKept(rows: seq<Hit>, limit: int, bucket: string, key: string, cutoff: int)
    requires limit <= cutoff + 1
    ensures After(Saved(Kept(rows, limit), bucket, key), cutoff) == After(Saved(rows, bucket, key), cutoff)
  {
    if rows != [] {
      SavedKept(rows[1..], limit, bucket, key, cutoff);
      var h := rows[0];
      var rest := Kept(rows[1..], limit);
      SavedOne(h, bucket, key);
      SavedConcat(if h.at >= limit then [h] else [], rest, bucket, key);
      AfterConcat(Saved(if h.at >= limit then [h] else [], bucket, key), Saved(rest, bucket, key), cutoff);
      AfterConcat(Saved([h], bucket, key), Saved(rows[1..], bucket, key), cutoff);
      AfterOne(h.at, cutoff);
    }
  }

  lemma {:induction false} SavedWithout(rows: seq<Hit>, bucket: string, key: string, b: string, k: string)
    ensures Saved(Without(rows, bucket, key), b, k) == if b == bucket && k == key then [] else Saved(rows, b, k)
  {
    if rows != [] {
      SavedWithout(rows[1..], bucket, key, b, k);
      var h := rows[0];
      SavedOne(h, b, k);
      SavedConcat(if h.bucket == bucket && h.key == key then [] else [h], Without(rows[1..], bucket, key), b, k);
    }
  }

  lemma {:induction false} KeptOrdered(rows: seq<Hit>, limit: int)
    requires RowsOrdered(rows)
    ensures RowsOrdered(Kept(rows, limit))
    ensures forall h :: h in Kept(rows, limit) ==> h in rows
  {
    if rows != [] {
      KeptOrdered(rows[1..], limit);
      var rest := Kept(rows[1..], limit);
      forall h | h in rest ensures h in rows && rows[0].at <= h.at {
        assert h in rows[1..];
      }
      Text.Prepended(rows[0], rest, (a: Hit, b: Hit) => a.at <= b.at);
    }
  }

  lemma {:induction false} WithoutOrdered(rows: seq<Hit>, bucket: string, key: string)
    requires RowsOrdered(rows)
    ensures RowsOrdered(Without(rows, bucket, key))
    ensures forall h :: h in Without(rows, bucket, key) ==> h in rows
  {
    if rows != [] {
      WithoutOrdered(rows[1..], bucket, key);
      var rest := Without(rows[1..], bucket, key);
      forall h | h in rest ensures h in rows && rows[0].at <= h.at {
        assert h in rows[1..];
      }
      Text.Prepended(rows[0], rest, (a: Hit, b: Hit) => a.at <= b.at);
    }
  }

  lemma {:induction false} SavedHit(rows: seq<Hit>, bucket: string, key: string, t: int) returns (h: Hit)
    requires t in Saved(rows, bucket, key)
    ensures h in rows && h == Hit(bucket, key, t)
  {
    if rows[0] == Hit(bucket, key, t) {
      h := rows[0];
    } else {
      h := SavedHit(rows[1..], bucket, key, t);
    }
  }

  lemma {:induction false} SavedOrdered(rows: seq<Hit>, bucket: string, key: string)
    requires RowsOrdered(rows)
    ensures Ordered(Saved(rows, bucket, key))
  {
    if rows != [] {
      SavedOrdered(rows[1..], bucket, key);
      var rest := Saved(rows[1..], bucket, key);
      forall t | t in rest ensures rows[0].at <= t {
        var h := SavedHit(rows[1..], bucket, key, t);
      }
      Text.Prepended(rows[0].at, rest, (a: int, b: int) => a <= b);
    }
  }

  lemma {:induction false} SortOrdered(s: seq<int>)
    requires Ordered(s)
    ensures Sort(s) == s
  {
    if s != [] {
      SortOrdered(s[1..]);
      assert s == [s[0]] + s[1..];
    }
  }

  lemma {:induction false} AfterOrdered(s: seq<int>, cutoff: int)
    requires Ordered(s)
    ensures Ordered(After(s, cutoff))
    ensures forall t :: t in After(s, cutoff) ==> t in s && t > cutoff
    ensures forall t :: t in s && t > cutoff ==> t in After(s, cutoff)
  {
    if s != [] {
      AfterOrdered(s[1..], cutoff);
      assert s == [s[0]] + s[1..];
      var rest := After(s[1..], cutoff);
      forall t | t in rest ensures s[0] <= t {
        assert t in s[1..];
      }
      Text.Prepended(s[0], rest, (a: int, b: int) => a <= b);
    }
  }

  lemma {:induction false} InsertAdds(t: int, s: seq<int>)
    ensures multiset(Insert(t, s)) == multiset(s) + multiset{t}
    ensures forall x :: x in Insert(t, s) ==> x in s || x == t
    decreases |s|
  {
    if s != [] && t > s[0] {
      assert s == [s[0]] + s[1..];
      InsertAdds(t, s[1..]);
    }
  }

  lemma {:induction false} InsertSorted(t: int, s: seq<int>)
    requires Ordered(s)
    ensures Ordered(Insert(t, s))
    decreases |s|
  {
    if s == [] || t <= s[0] {
      Text.Prepended(t, s, (a: int, b: int) => a <= b);
    } else {
      var rest := Insert(t, s[1..]);
      InsertSorted(t, s[1..]);
      InsertAdds(t, s[1..]);
      assert s == [s[0]] + s[1..];
      LeastFirst(s[0], t, s[1..], rest);
    }
  }

  lemma LeastFirst(first: int, t: int, s: seq<int>, rest: seq<int>)
    requires Ordered([first] + s) && first < t && Ordered(rest) && forall x :: x in rest ==> x in s || x == t
    ensures Ordered([first] + rest)
  {
    forall x | x in s ensures first <= x {
      var i :| 0 <= i < |s| && s[i] == x;
      assert ([first] + s)[0] == first && ([first] + s)[i + 1] == x;
    }
    Text.Prepended(first, rest, (a: int, b: int) => a <= b);
  }

  lemma {:induction false} SortSorts(s: seq<int>)
    ensures Ordered(Sort(s)) && multiset(Sort(s)) == multiset(s)
    decreases |s|
  {
    if s != [] {
      assert s == [s[0]] + s[1..];
      SortSorts(s[1..]);
      InsertAdds(s[0], Sort(s[1..]));
      InsertSorted(s[0], Sort(s[1..]));
    }
  }

  /** What a restart loads for one key, in or out of the loaded map: exactly its saved
      hits since then, in time order. */
  lemma LoadedHits(rows: seq<Hit>, bucket: string, since: int, key: string)
    ensures var loaded, saved := Hits(LoadHits(rows, bucket, since), key), Since(Saved(rows, bucket, key), since);
            && loaded == Sort(saved) && Ordered(loaded) && multiset(loaded) == multiset(saved)
            && (RowsOrdered(rows) ==> loaded == saved)
  {
    hide Saved, After, Insert;
    var all := Saved(rows, bucket, key);
    var s := Since(all, since);
    SortSorts(s);
    if RowsOrdered(rows) {
      SavedOrdered(rows, bucket, key);
      AfterOrdered(all, since - 1);
      SortOrdered(s);
    }
    if key !in KeysOf(rows, bucket, since) {
      NoneLoaded(rows, bucket, since, key);
    }
  }

  lemma {:induction false} AfterMember(s: seq<int>, cutoff: int)
    ensures forall t :: t in After(s, cutoff) ==> t in s && t > cutoff
    decreases |s|
  {
    if s != [] {
      AfterMember(s[1..], cutoff);
      assert s == [s[0]] + s[1..];
    }
  }

  // ---- the query's order --------------------------------------------------------------

  function InsertRow(h: Hit, rows: seq<Hit>): seq<Hit> {
    if rows == [] || h.at <= rows[0].at then [h] + rows else [rows[0]] + InsertRow(h, rows[1..])
  }

  /** ORDER BY at, over the rows. */
  function SortRows(rows: seq<Hit>): seq<Hit> {
    if rows == [] then [] else InsertRow(rows[0], SortRows(rows[1..]))
  }

  lemma InsertLow(t: int, s: seq<int>)
    requires forall x :: x in s ==> t <= x
    ensures Insert(t, s) == [t] + s
  {
    if s != [] {
      assert s[0] in s;
    }
  }

  lemma {:induction false} InsertRowSorted(h: Hit, rows: seq<Hit>)
    requires RowsOrdered(rows)
    ensures RowsOrdered(InsertRow(h, rows)) && (forall r :: r in InsertRow(h, rows) ==> r in rows || r == h)
    decreases |rows|
  {
    if rows == [] || h.at <= rows[0].at {
      Text.Prepended(h, rows, (a: Hit, b: Hit) => a.at <= b.at);
    } else {
      InsertRowSorted(h, rows[1..]);
      var rest := InsertRow(h, rows[1..]);
      assert rows == [rows[0]] + rows[1..];
      Text.Prepended(rows[0], rest, (a: Hit, b: Hit) => a.at <= b.at);
    }
  }

  lemma SavedFirst(h: Hit, rows: seq<Hit>, bucket: string, key: string)
    ensures Saved([h] + rows, bucket, key)
            == if h.bucket == bucket && h.key == key then [h.at] + Saved(rows, bucket, key) else Saved(rows, bucket, key)
  {
    assert ([h] + rows)[1..] == rows;
    assert [] + Saved(rows, bucket, key) == Saved(rows, bucket, key);
  }

  /** Sorting the rows sorts each key's times. */
  lemma {:induction false} SavedOfInsert(h: Hit, rows: seq<Hit>, bucket: string, key: string)
    requires RowsOrdered(rows)
    ensures Saved(InsertRow(h, rows), bucket, key)
            == if h.bucket == bucket && h.key == key then Insert(h.at, Saved(rows, bucket, key)) else Saved(rows, bucket, key)
    decreases |rows|
  {
    hide Insert, Saved;
    if rows == [] || h.at <= rows[0].at {
      SavedFirst(h, rows, bucket, key);
      forall t | t in Saved(rows, bucket, key) ensures h.at <= t {
        var r := SavedHit(rows, bucket, key, t);
      }
      InsertLow(h.at, Saved(rows, bucket, key));
    } else {
      SavedOfInsert(h, rows[1..], bucket, key);
      assert rows == [rows[0]] + rows[1..];
      SavedFirst(rows[0], rows[1..], bucket, key);
      SavedFirst(rows[0], InsertRow(h, rows[1..]), bucket, key);
      InsertHigh(h.at, rows[0].at, Saved(rows[1..], bucket, key));
    }
  }

  lemma InsertHigh(t: int, first: int, s: seq<int>)
    requires t > first
    ensures Insert(t, [first] + s) == [first] + Insert(t, s)
  {
    assert ([first] + s)[1..] == s;
  }

  lemma {:induction false} SavedOfSort(rows: seq<Hit>, bucket: string, key: string)
    ensures RowsOrdered(SortRows(rows)) && Saved(SortRows(rows), bucket, key) == Sort(Saved(rows, bucket, key))
    decreases |rows|
  {
    hide Insert, InsertRow;
    if rows != [] {
      SavedOfSort(rows[1..], bucket, key);
      InsertRowSorted(rows[0], SortRows(rows[1..]));
      SavedOfInsert(rows[0], SortRows(rows[1..]), bucket, key);
      var rest := Saved(rows[1..], bucket, key);
      if rows[0].bucket == bucket && rows[0].key == key {
        assert ([rows[0].at] + rest)[1..] == rest;
      } else {
        assert [] + rest == rest;
      }
    }
  }

  lemma OrderedTail(s: seq<int>)
    requires Ordered(s) && s != []
    ensures Ordered(s[1..]) && forall x :: x in s ==> s[0] <= x
  {
  }

  /** Filtering by time and sorting commute. */
  lemma {:induction false} AfterOfInsert(t: int, s: seq<int>, cutoff: int)
    requires Ordered(s)
    ensures After(Insert(t, s), cutoff) == if t > cutoff then Insert(t, After(s, cutoff)) else After(s, cutoff)
    decreases |s|
  {
    hide Ordered;
    if s != [] {
      OrderedTail(s);
    }
    if s == [] || t <= s[0] {
      assert ([t] + s)[1..] == s;
      AfterMember(s, cutoff);
      InsertLow(t, After(s, cutoff));
      assert [] + After(s, cutoff) == After(s, cutoff);
    } else {
      AfterOfInsert(t, s[1..], cutoff);
      var rest := Insert(t, s[1..]);
      assert ([s[0]] + rest)[1..] == rest;
      assert [] + After(rest, cutoff) == After(rest, cutoff);
      assert [] + After(s[1..], cutoff) == After(s[1..], cutoff);
      if s[0] > cutoff {
        InsertHigh(t, s[0], After(s[1..], cutoff));
      }
    }
  }

  lemma {:induction false} AfterOfSort(s: seq<int>, cutoff: int)
    ensures After(Sort(s), cutoff) == Sort(After(s, cutoff))
    decreases |s|
  {
    hide Insert;
    if s != [] {
      SortSorts(s[1..]);
      AfterOfSort(s[1..], cutoff);
      AfterOfInsert(s[0], Sort(s[1..]), cutoff);
      var rest := After(s[1..], cutoff);
      if s[0] > cutoff {
        assert ([s[0]] + rest)[1..] == rest;
      } else {
        assert [] + rest == rest;
      }
    }
  }

  lemma NoneLoaded(rows: seq<Hit>, bucket: string, since: int, key: string)
    requires key !in KeysOf(rows, bucket, since)
    ensures Since(Saved(rows, bucket, key), since) == []
  {
    var all := Saved(rows, bucket, key);
    AfterMember(all, since - 1);
    if Since(all, since) != [] {
      assert Since(all, since)[0] in Since(all, since);
      KeyOfSaved(rows, bucket, since, key, Since(all, since)[0]);
    }
  }

  lemma KeyOfSaved(rows: seq<Hit>, bucket: string, since: int, key: string, t: int)
    requires t in Saved(rows, bucket, key) && t >= since
    ensures key in KeysOf(rows, bucket, since)
  {
    var h := SavedHit(rows, bucket, key, t);
    assert h.key in KeysOf(rows, bucket, since);
  }

  // ---- every step keeps the agreement ------------------------------------------------------

  /** The window only moves forward. */
  lemma AgreesLater(w: World, now: int, key: string)
    requires Agrees(w, key) && now >= w.clock
    ensures var floor := now - w.lim.window;
            && After(Hits(w.lim.hits, key), floor) == After(Hits(w.hist, key), floor)
            && After(Saved(w.rows, w.lim.bucket, key), floor) == After(Hits(w.hist, key), floor)
  {
    hide After, Saved;
    var old_, floor := w.clock - w.lim.window, now - w.lim.window;
    AfterTwice(Hits(w.lim.hits, key), old_, floor);
    AfterTwice(Hits(w.hist, key), old_, floor);
    AfterTwice(Saved(w.rows, w.lim.bucket, key), old_, floor);
  }

  lemma PruneKeeps(m: map<string, seq<int>>, key: string, cutoff: int, k: string)
    ensures After(Hits(Prune(m, key, cutoff), k), cutoff) == After(Hits(m, k), cutoff)
  {
    hide After;
    AfterTwice(Hits(m, key), cutoff, cutoff);
    AfterNone(cutoff);
  }

  lemma AfterNone(cutoff: int)
    ensures After([], cutoff) == []
  {
  }

  lemma SweepKeeps(l: Limiter, now: int, k: string)
    ensures var cutoff := now - l.window;
            After(Hits(Sweep(l, now).hits, k), cutoff) == After(Hits(l.hits, k), cutoff)
  {
    hide After;
    AfterTwice(Hits(l.hits, k), now - l.window, now - l.window);
    AfterNone(now - l.window);
  }

  lemma AddHitKeeps(l: Limiter, key: string, now: int, k: string)
    ensures var cutoff := now - l.window;
            After(Hits(AddHit(l, key, now).hits, k), cutoff)
            == if k == key then After(Hits(l.hits, k), cutoff) + After([now], cutoff) else After(Hits(l.hits, k), cutoff)
  {
    hide After, Sweep;
    var cutoff := now - l.window;
    var kept := After(Hits(l.hits, key), cutoff);
    var mid := l.(hits := l.hits[key := kept + [now]]);
    SweepKeeps(mid, now, k);
    AfterConcat(kept, [now], cutoff);
    AfterTwice(Hits(l.hits, key), cutoff, cutoff);
  }

  lemma RecordKeeps(rows: seq<Hit>, h: Hit, bucket: string, key: string, cutoff: int)
    requires h.at - RETENTION <= cutoff + 1
    ensures After(Saved(RecordHit(rows, h), bucket, key), cutoff)
            == After(Saved(rows, bucket, key), cutoff) + (if h.bucket == bucket && h.key == key then After([h.at], cutoff) else [])
  {
    hide After, Saved, Kept;
    SavedKept(rows + [h], h.at - RETENTION, bucket, key, cutoff);
    SavedConcat(rows, [h], bucket, key);
    SavedOne(h, bucket, key);
    AfterConcat(Saved(rows, bucket, key), Saved([h], bucket, key), cutoff);
    AfterNone(cutoff);
  }

  lemma RowsLater(w: World, h: Hit)
    requires InTime(w) && h.at >= w.clock
    ensures RowsOrdered(RecordHit(w.rows, h))
    ensures forall i :: 0 <= i < |RecordHit(w.rows, h)| ==> RecordHit(w.rows, h)[i].at <= h.at
  {
    hide Kept;
    var all := w.rows + [h];
    assert RowsOrdered(all);
    KeptOrdered(all, h.at - RETENTION);
    var rows := RecordHit(w.rows, h);
    forall i | 0 <= i < |rows| ensures rows[i].at <= h.at {
      assert rows[i] in all;
    }
  }

  lemma RowsWithout(w: World, bucket: string, key: string)
    requires InTime(w)
    ensures RowsOrdered(Without(w.rows, bucket, key))
    ensures forall i :: 0 <= i < |Without(w.rows, bucket, key)| ==> Without(w.rows, bucket, key)[i].at <= w.clock
  {
    hide Without;
    WithoutOrdered(w.rows, bucket, key);
    var rows := Without(w.rows, bucket, key);
    forall i | 0 <= i < |rows| ensures rows[i].at <= w.clock {
      assert rows[i] in w.rows;
    }
  }

  lemma StepInTime(w: World, op: Op)
    requires InTime(w) && CanStep(w, op)
    ensures InTime(Step(w, op))
  {
    hide RecordHit, Without, AddHit, Look, Restarted;
    match op
    case HitAt(key, now) => RowsLater(w, Hit(w.lim.bucket, key, now));
    case ResetAt(key, now) => RowsWithout(w, w.lim.bucket, key);
    case LookAt(_, _) =>
    case RestartAt(_) =>
    case ForeignHit(bucket, key, now) => RowsLater(w, Hit(bucket, key, now));
    case ForeignReset(bucket, key, now) => RowsWithout(w, bucket, key);
  }

  lemma HitAgrees(w: World, key: string, now: int, k: string)
    requires Inv(w) && now >= w.clock
    ensures Agrees(Step(w, HitAt(key, now)), k)
  {
    hide After, Saved, RecordHit, AddHit, Ordered, RowsOrdered;
    var floor := now - w.lim.window;
    LimitSame(w.lim, key, now);
    AgreesLater(w, now, k);
    AddHitKeeps(w.lim, key, now, k);
    RecordKeeps(w.rows, Hit(w.lim.bucket, key, now), w.lim.bucket, k, floor);
    AfterConcat(Hits(w.hist, k), [now], floor);
    var none := After(Hits(w.hist, k), floor);
    assert none + [] == none;
  }

  lemma LimitSame(l: Limiter, key: string, now: int)
    ensures AddHit(l, key, now).window == l.window && AddHit(l, key, now).bucket == l.bucket && AddHit(l, key, now).limit == l.limit
  {
  }

  lemma ForeignAgrees(w: World, bucket: string, key: string, now: int, k: string)
    requires Inv(w) && now >= w.clock && bucket != w.lim.bucket
    ensures Agrees(Step(w, ForeignHit(bucket, key, now)), k) && Agrees(Step(w, ForeignReset(bucket, key, now)), k)
  {
    hide After, Saved, RecordHit, Without, Ordered, RowsOrdered;
    var floor := now - w.lim.window;
    AgreesLater(w, now, k);
    RecordKeeps(w.rows, Hit(bucket, key, now), w.lim.bucket, k, floor);
    SavedWithout(w.rows, bucket, key, w.lim.bucket, k);
    var none := After(Hits(w.hist, k), floor);
    assert none + [] == none;
  }

  lemma RestartAgrees(w: World, now: int, k: string)
    requires Inv(w) && now >= w.clock
    ensures Agrees(Step(w, RestartAt(now)), k)
  {
    hide After, Saved, LoadHits, Ordered, RowsOrdered;
    var floor := now - w.lim.window;
    AgreesLater(w, now, k);
    LoadedHits(w.rows, w.lim.bucket, floor, k);
    AfterTwice(Saved(w.rows, w.lim.bucket, k), floor - 1, floor);
  }

  lemma StepKeeps(w: World, op: Op)
    requires Inv(w) && CanStep(w, op)
    ensures Inv(Step(w, op))
    ensures var v := Step(w, op); v.lim.window == w.lim.window && v.lim.limit == w.lim.limit && v.lim.bucket == w.lim.bucket
  {
    hide After, Saved, RecordHit, Without, LoadHits, InTime, Agrees, AddHit;
    StepInTime(w, op);
    match op
    case HitAt(key, now) =>
      LimitSame(w.lim, key, now);
      forall k ensures Agrees(Step(w, op), k) {
        HitAgrees(w, key, now, k);
      }
    case ResetAt(key, now) =>
      forall k ensures Agrees(Step(w, op), k) {
        ResetAgrees(w, key, now, k);
      }
    case LookAt(key, now) =>
      forall k ensures Agrees(Step(w, op), k) {
        AgreesLater(w, now, k);
        PruneKeeps(w.lim.hits, key, now - w.lim.window, k);
        LookAgrees(w, key, now, k);
      }
    case RestartAt(now) =>
      forall k ensures Agrees(Step(w, op), k) {
        RestartAgrees(w, now, k);
      }
    case ForeignHit(bucket, key, now) =>
      forall k ensures Agrees(Step(w, op), k) {
        ForeignAgrees(w, bucket, key, now, k);
      }
    case ForeignReset(bucket, key, now) =>
      forall k ensures Agrees(Step(w, op), k) {
        ForeignAgrees(w, bucket, key, now, k);
      }
  }

  lemma LookAgrees(w: World, key: string, now: int, k: string)
    requires Inv(w) && now >= w.clock
    ensures Agrees(Step(w, LookAt(key, now)), k)
  {
    hide After, Saved, Prune, Ordered, RowsOrdered;
    AgreesLater(w, now, k);
    PruneKeeps(w.lim.hits, key, now - w.lim.window, k);
  }

  lemma ResetAgrees(w: World, key: string, now: int, k: string)
    requires Inv(w) && now >= w.clock
    ensures Agrees(Step(w, ResetAt(key, now)), k)
  {
    hide After, Saved, Without, Ordered, RowsOrdered;
    AgreesLater(w, now, k);
    SavedWithout(w.rows, w.lim.bucket, key, w.lim.bucket, k);
  }

  lemma {:induction false} RunKeeps(w: World, ops: seq<Op>)
    requires Inv(w) && CanRun(w, ops)
    ensures Inv(Run(w, ops))
    ensures var v := Run(w, ops); v.lim.window == w.lim.window && v.lim.limit == w.lim.limit && v.lim.bucket == w.lim.bucket
    decreases |ops|
  {
    hide Step, Inv, CanStep;
    if ops != [] {
      RunKeeps(w, ops[..|ops| - 1]);
      StepKeeps(Run(w, ops[..|ops| - 1]), ops[|ops| - 1]);
    }
  }

  lemma StartInv(limit: int, window: nat, bucket: string, clock: int)
    requires window <= RETENTION
    ensures Inv(Start(limit, window, bucket, clock))
  {
  }

  // ---- main result ----------------------------------------------------------------------------

  /** Restart transparency: whatever was hit, reset, looked at, swept and
      reloaded from the database, however often, the limiter answers exactly as
      one that keeps every hit since the key's last reset. */
  lemma RestartTransparent(limit: int, window: nat, bucket: string, clock: int, ops: seq<Op>, key: string, now: int)
    requires window <= RETENTION && CanRun(Start(limit, window, bucket, clock), ops)
    requires now >= Run(Start(limit, window, bucket, clock), ops).clock
    ensures var w := Run(Start(limit, window, bucket, clock), ops);
            var recent := After(Hits(w.hist, key), now - window);
            && (Blocked(w.lim, key, now) <==> |recent| >= limit)
            && StatsFor(w.lim, key, now) == StatsOf(recent)
  {
    hide Run, After, InTime, Saved;
    var start := Start(limit, window, bucket, clock);
    StartInv(limit, window, bucket, clock);
    RunKeeps(start, ops);
    var w := Run(start, ops);
    assert Agrees(w, key);
    AgreesLater(w, now, key);
  }

  /** The hits inside the window. */
  ghost function Within(s: seq<int>, cutoff: int): set<nat> { set i: nat | i < |s| && s[i] > cutoff }

  lemma WithinGrows(s: seq<int>, cutoff: int)
    requires s != []
    ensures |Within(s, cutoff)| == |Within(s[..|s| - 1], cutoff)| + if s[|s| - 1] > cutoff then 1 else 0
  {
    var more: set<nat> := if s[|s| - 1] > cutoff then {|s| - 1} else {};
    assert Within(s, cutoff) == Within(s[..|s| - 1], cutoff) + more;
  }

  lemma {:induction false} AfterCounts(s: seq<int>, cutoff: int)
    ensures |After(s, cutoff)| == |Within(s, cutoff)|
    ensures s != [] && s[|s| - 1] > cutoff ==> After(s, cutoff) != [] && After(s, cutoff)[|After(s, cutoff)| - 1] == s[|s| - 1]
    decreases |s|
  {
    hide Within, After;
    if s == [] {
      NoneWithin(cutoff);
    } else {
      var before, last := s[..|s| - 1], s[|s| - 1];
      AfterCounts(before, cutoff);
      WithinGrows(s, cutoff);
      assert s == before + [last];
      AfterConcat(before, [last], cutoff);
      AfterOne(last, cutoff);
    }
  }

  lemma NoneWithin(cutoff: int)
    ensures |Within([], cutoff)| == 0 && After([], cutoff) == []
  {
  }

  /** After any run a key is blocked if and only if at least limit of its hits since its
      last reset came within the window; the statistics are their number and, if there is
      one, the time of the last hit. */
  lemma AnswersCount(limit: int, window: nat, bucket: string, clock: int, ops: seq<Op>, key: string, now: int)
    requires window <= RETENTION && CanRun(Start(limit, window, bucket, clock), ops)
    requires now >= Run(Start(limit, window, bucket, clock), ops).clock
    ensures var w := Run(Start(limit, window, bucket, clock), ops);
            var h := Hits(w.hist, key);
            var n := |Within(h, now - window)|;
            && (Blocked(w.lim, key, now) <==> n >= limit) && StatsFor(w.lim, key, now).count == n
            && StatsFor(w.lim, key, now).last == if n == 0 then 0 else h[|h| - 1]
  {
    hide Run, After, InTime, Saved, Within, Blocked, StatsFor, Agrees;
    var start := Start(limit, window, bucket, clock);
    RestartTransparent(limit, window, bucket, clock, ops, key, now);
    StartInv(limit, window, bucket, clock);
    RunKeeps(start, ops);
    var w := Run(start, ops);
    var h := Hits(w.hist, key);
    AfterCounts(h, now - window);
    LastIsLatest(w, key, now - window);
  }

  lemma LastIsLatest(w: World, key: string, cutoff: int)
    requires InTime(w)
    ensures var h := Hits(w.hist, key);
            After(h, cutoff) != [] ==> h != [] && h[|h| - 1] > cutoff
  {
    hide After, RowsOrdered;
    var h := Hits(w.hist, key);
    AfterOrdered(h, cutoff);
    if After(h, cutoff) != [] {
      var t := After(h, cutoff)[0];
      assert t in After(h, cutoff) && t in h;
      var i :| 0 <= i < |h| && h[i] == t;
    }
  }

  /** A sweep in progress: the keys in done have been pruned. */
  function PruneSome(m: map<string, seq<int>>, done: set<string>, cutoff: int): map<string, seq<int>> {
    map key | key in m && (key in done ==> After(m[key], cutoff) != []) :: if key in done then After(m[key], cutoff) else m[key]
  }

  lemma PruneOne(m: map<string, seq<int>>, done: set<string>, key: string, cutoff: int)
    requires key in m && key !in done
    ensures Prune(PruneSome(m, done, cutoff), key, cutoff) == PruneSome(m, done + {key}, cutoff)
  {
    hide After;
    var p, q := Prune(PruneSome(m, done, cutoff), key, cutoff), PruneSome(m, done + {key}, cutoff);
    assert p.Keys == q.Keys;
  }

  // ---- the methods of the program ----------------------------------------------------------------

  lemma NoRows(bucket: string, since: int)
    ensures forall key :: Since(Saved([], bucket, key), since) == []
  {
  }

  /** One more row, if it is the bucket's, the key's and not too old. */
  function Grown(s: seq<int>, h: Hit, bucket: string, key: string, since: int): seq<int> {
    if h.bucket == bucket && h.key == key && h.at >= since then s + [h.at] else s
  }

  lemma OneRow(rows: seq<Hit>, h: Hit, bucket: string, key: string, since: int)
    ensures Since(Saved(rows + [h], bucket, key), since)
            == Grown(Since(Saved(rows, bucket, key), since), h, bucket, key, since)
  {
    hide Saved, After;
    var s := Since(Saved(rows, bucket, key), since);
    assert s + [] == s;
    SavedConcat(rows, [h], bucket, key);
    SavedOne(h, bucket, key);
    AfterConcat(Saved(rows, bucket, key), Saved([h], bucket, key), since - 1);
    AfterOne(h.at, since - 1);
    AfterNone(since - 1);
  }

  /** Database rows of the throttle_hits table. */
  class ThrottleTable {
    var rows: seq<Hit>

    constructor ()
      ensures rows == []
    {
      rows := [];
    }

    method Record(bucket: string, key: string, at: int)
      modifies this
      ensures rows == RecordHit(old(rows), Hit(bucket, key, at))
    {
      rows := rows + [Hit(bucket, key, at)];
      rows := Kept(rows, at - RETENTION);
    }

    /** The query's rows, in time order, gathered into a map by key. */
    method Load(bucket: string, since: int) returns (out: map<string, seq<int>>)
      ensures forall key :: Hits(out, key) == Hits(LoadHits(rows, bucket, since), key)
    {
      hide LoadHits, Saved, After, Sort, SortRows;
      var query := SortRows(rows);
      out := map[];
      NoRows(bucket, since);
      for i := 0 to |query|
        invariant forall key :: Hits(out, key) == Since(Saved(query[..i], bucket, key), since)
      {
        var h := query[i];
        ghost var before := out;
        if h.bucket == bucket && h.at >= since {
          out := out[h.key := Hits(out, h.key) + [h.at]];
        }
        assert query[..i + 1] == query[..i] + [h];
        forall key ensures Hits(out, key) == Since(Saved(query[..i + 1], bucket, key), since) {
          assert Hits(before, key) == Since(Saved(query[..i], bucket, key), since);
          OneRow(query[..i], h, bucket, key, since);
        }
      }
      assert query[..|query|] == query;
      forall key ensures Hits(out, key) == Hits(LoadHits(rows, bucket, since), key) {
        LoadedHits(rows, bucket, since, key);
        SavedOfSort(rows, bucket, key);
        AfterOfSort(Saved(rows, bucket, key), since - 1);
      }
    }

    method Clear(bucket: string, key: string)
      modifies this
      ensures rows == Without(old(rows), bucket, key)
    {
      rows := Without(rows, bucket, key);
    }
  }

  class RateLimiter {
    const limit: int
    const window: nat
    const bucket: string
    const db: ThrottleTable
    var hits: map<string, seq<int>>
    var swept: Swept

    /** The value of the limiter, which the lemmas above are about. */
    function Value(): Limiter
      reads this
    {
      Limiter(limit, window, bucket, hits, swept)
    }

    constructor (limit: int, window: nat, bucket: string, db: ThrottleTable, now: int)
      ensures this.db == db
      ensures Value() == Limiter(limit, window, bucket, LoadHits(db.rows, bucket, now - window), Never)
    {
      this.limit, this.window, this.bucket, this.db := limit, window, bucket, db;
      this.hits := LoadHits(db.rows, bucket, now - window);
      this.swept := Never;
    }

    method Recent(key: string, now: int) returns (kept: seq<int>)
      modifies this
      ensures kept == After(Hits(old(hits), key), now - window)
      ensures hits == Prune(old(hits), key, now - window) && swept == old(swept)
    {
      var cutoff := now - window;
      kept := [];
      var all := Hits(hits, key);
      assert all[0..] == all;
      for i := 0 to |all|
        invariant kept + After(all[i..], cutoff) == After(all, cutoff)
        invariant hits == old(hits) && swept == old(swept)
      {
        assert all[i..][1..] == all[i + 1..];
        if all[i] > cutoff {
          Text.Assoc(kept, [all[i]], After(all[i + 1..], cutoff));
          kept := kept + [all[i]];
        }
      }
      assert all[|all|..] == [] && kept + [] == kept;
      if kept == [] {
        hits := hits - {key};
      } else {
        hits := hits[key := kept];
      }
    }

    method SweepAll(now: int)
      modifies this
      ensures Value() == Sweep(old(Value()), now)
    {
      if swept.Swept? && now - swept.at < window {
        return;
      }
      swept := Swept(now);
      PruneEvery(now);
    }

    method PruneEvery(now: int)
      modifies this
      ensures hits == PruneAll(old(hits), now - window) && swept == old(swept)
    {
      hide After, Prune;
      ghost var all := hits;
      var left := hits.Keys;
      while left != {}
        invariant left <= all.Keys && swept == old(swept)
        invariant hits == PruneSome(all, all.Keys - left, now - window)
        decreases |left|
      {
        var key :| key in left;
        PruneOne(all, all.Keys - left, key, now - window);
        assert all.Keys - (left - {key}) == all.Keys - left + {key};
        left := left - {key};
        var _ := Recent(key, now);
      }
    }

    method IsBlocked(key: string, now: int) returns (b: bool)
      modifies this
      ensures b == Blocked(old(Value()), key, now) && Value() == Look(old(Value()), key, now)
    {
      var kept := Recent(key, now);
      b := |kept| >= limit;
    }

    method AddOne(key: string, now: int)
      requires db as object != this
      modifies this, db
      ensures Value() == AddHit(old(Value()), key, now)
      ensures db.rows == RecordHit(old(db.rows), Hit(bucket, key, now))
    {
      ghost var before := Value();
      var kept := Recent(key, now);
      hits := hits[key := kept + [now]];
      assert Value() == before.(hits := before.hits[key := kept + [now]]);
      SweepAll(now);
      db.Record(bucket, key, now);
    }

    method Reset(key: string)
      requires db as object != this
      modifies this, db
      ensures Value() == old(Value()).(hits := old(hits) - {key})
      ensures db.rows == Without(old(db.rows), bucket, key)
    {
      hits := hits - {key};
      db.Clear(bucket, key);
    }

    method GetStats(key: string, now: int) returns (s: Stats)
      modifies this
      ensures s == StatsFor(old(Value()), key, now) && Value() == Look(old(Value()), key, now)
    {
      var kept := Recent(key, now);
      if |kept| == 0 {
        return Stats(0, 0);
      }
      return Stats(|kept|, kept[|kept| - 1]);
    }
  }
}
