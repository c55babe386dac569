/**
 The teleconference of internal/bbs/chat.go as a machine: each method runs under the
 hub's lock and is one step, and so is a member reading from its channel. Members
 are pointers in the program and numbers here.
 */
module Chats {
  import opened Text
  import Letters
  import Pipes
  import Widths

  const BACKLOG := 64
  const SYSTEM := 0

  datatype ChatLine = ChatLine(from: int, text: string)

  /** taken is what the member has read from its channel, which the program does not keep. */
  datatype Member = Member(userID: int, handle: string, blocked: set<int>, out: seq<ChatLine>, room: string,
                           taken: seq<ChatLine>)

  datatype State = State(members: map<nat, Member>, rooms: map<string, set<nat>>)

  const EMPTY := State(map[], map[])

  datatype Event =
    | Arrive(id: nat, userID: int, handle: string, blocked: set<int>)
    | Join(id: nat, room: string)
    | Leave(id: nat)
    | Say(id: nat, text: string)
    | Take(id: nat)

  // ---- lines ------------------------------------------------------------------------

  function Safe(s: string): string { Widths.Escape(Letters.StripControl(s)) }

  function Announced(handle: string, what: string): ChatLine {
    ChatLine(SYSTEM, "|08*** |14" + Safe(handle) + "|08" + what)
  }

  function Joined(handle: string, room: string): ChatLine { Announced(handle, " joined #" + room) }

  function Left(handle: string): ChatLine { Announced(handle, " left") }

  predicate Blocks(blocked: set<int>, line: ChatLine) { line.from != SYSTEM && line.from in blocked }

  /** What one send does to a member's channel: a line it blocks is not for it, and
      when the channel is full it is missed. */
  function Accept(out: seq<ChatLine>, blocked: set<int>, line: ChatLine): seq<ChatLine> {
    if Blocks(blocked, line) || |out| >= BACKLOG then out else out + [line]
  }

  // ---- steps --------------------------------------------------------------------------

  function Deliver(m: Member, line: ChatLine): Member { m.(out := Accept(m.out, m.blocked, line)) }

  function MembersOf(s: State, room: string): set<nat> { if room in s.rooms then s.rooms[room] else {} }

  /** sendLocked. */
  function Send(s: State, room: string, line: ChatLine): State {
    s.(members := map id | id in s.members :: if id in MembersOf(s, room) then Deliver(s.members[id], line) else s.members[id])
  }

  function Removed(s: State, id: nat): State
    requires id in s.members
  {
    var room := s.members[id].room;
    var left := MembersOf(s, room) - {id};
    State(s.members[id := s.members[id].(room := "")], if left == {} then s.rooms - {room} else s.rooms[room := left])
  }

  function Placed(s: State, id: nat, room: string): State
    requires id in s.members
  {
    State(s.members[id := s.members[id].(room := room)], s.rooms[room := MembersOf(s, room) + {id}])
  }

  /** leaveLocked. */
  function LeaveRoom(s: State, id: nat): State
    requires id in s.members
  {
    var m := s.members[id];
    if m.room == "" then s else Send(Removed(s, id), m.room, Left(m.handle))
  }

  function JoinRoom(s: State, id: nat, room: string): State
    requires id in s.members
  {
    var t := LeaveRoom(s, id);
    Send(Placed(t, id, room), room, Joined(s.members[id].handle, room))
  }

  function Step(s: State, ev: Event): State {
    if ev.Arrive? then
      if ev.id in s.members then s
      else s.(members := s.members[ev.id := Member(ev.userID, ev.handle, ev.blocked, [], "", [])])
    else if ev.id !in s.members then s
    else
      var m := s.members[ev.id];
      match ev
      case Join(id, room) => if room == "" then s else JoinRoom(s, id, room)
      case Leave(id) => LeaveRoom(s, id)
      case Say(_, text) => if m.room == "" then s else Send(s, m.room, ChatLine(m.userID, text))
      case Take(id) => if m.out == [] then s else s.(members := s.members[id := m.(out := m.out[1..], taken := m.taken + [m.out[0]])])
  }

  function Run(evs: seq<Event>): State {
    if evs == [] then EMPTY else Step(Run(evs[..|evs| - 1]), evs[|evs| - 1])
  }

  // ---- what a member should hear -----------------------------------------------------------

  /** The room a member joined last and has not left, from the events alone. */
  function RoomBy(evs: seq<Event>, id: nat): string {
    if evs == [] then ""
    else
      var room := RoomBy(evs[..|evs| - 1], id);
      match evs[|evs| - 1]
      case Join(x, r) => if x == id && r != "" && HasArrived(evs[..|evs| - 1], id) then r else room
      case Leave(x) => if x == id then "" else room
      case _ => room
  }

  predicate HasArrived(evs: seq<Event>, id: nat) { exists ev :: ev in evs && ev.Arrive? && ev.id == id }

  /** The lines an event sends to the room a member is in, by the member's own room
      field: someone leaving or speaking there, someone coming there, itself coming. */
  function HeardIn(s: State, ev: Event, id: nat): seq<ChatLine>
    requires id in s.members
  {
    var here := s.members[id].room;
    if ev.Arrive? || ev.Take? || ev.id !in s.members then []
    else
      var m := s.members[ev.id];
      var together := here != "" && m.room == here;
      match ev
      case Say(_, text) => if together then [ChatLine(m.userID, text)] else []
      case Leave(x) => if together && x != id then [Left(m.handle)] else []
      case Join(x, room) =>
        if room == "" then []
        else (if together && x != id then [Left(m.handle)] else [])
             + (if x == id || here == room then [Joined(m.handle, room)] else [])
  }

  /** All of them, from when the member arrived. */
  function HeardBy(evs: seq<Event>, id: nat): seq<ChatLine> {
    if evs == [] then []
    else
      var before := evs[..|evs| - 1];
      HeardBy(before, id) + if id in Run(before).members then HeardIn(Run(before), evs[|evs| - 1], id) else []
  }

  datatype Channel = Channel(out: seq<ChatLine>, taken: seq<ChatLine>)

  /** The channel after these lines were offered in order: one is kept when it is not
      blocked and fewer than 64 wait. */
  function OfferAll(out: seq<ChatLine>, blocked: set<int>, lines: seq<ChatLine>): seq<ChatLine>
    decreases |lines|
  {
    if lines == [] then out else OfferAll(Accept(out, blocked, lines[0]), blocked, lines[1..])
  }

  /** A member's channel, from the events and what it hears of each. */
  function ChannelBy(evs: seq<Event>, id: nat): Channel {
    if evs == [] then Channel([], [])
    else
      var before, ev := evs[..|evs| - 1], evs[|evs| - 1];
      var ch := ChannelBy(before, id);
      if id !in Run(before).members then Channel([], [])
      else if ev == Take(id) then if ch.out == [] then ch else Channel(ch.out[1..], ch.taken + [ch.out[0]])
      else ch.(out := OfferAll(ch.out, Run(before).members[id].blocked, HeardIn(Run(before), ev, id)))
  }

  // ---- what holds in every state -----------------------------------------------------------

  /** a is b with some lines left out. */
  predicate Within(a: seq<ChatLine>, b: seq<ChatLine>)
    decreases |b|
  {
    a == [] || (b != [] && (Within(a, b[..|b| - 1]) || (a[|a| - 1] == b[|b| - 1] && Within(a[..|a| - 1], b[..|b| - 1]))))
  }

  /** The lines of users that are not blocked. */
  function Wanted(lines: seq<ChatLine>, blocked: set<int>): seq<ChatLine> {
    if lines == [] then []
    else
      var k := |lines| - 1;
      Wanted(lines[..k], blocked) + if Blocks(blocked, lines[k]) then [] else [lines[k]]
  }

  /** heard is what the member should have heard. */
  ghost predicate MemberOk(m: Member, heard: seq<ChatLine>) {
    && |m.out| <= BACKLOG
    && Within(m.taken + m.out, Wanted(heard, m.blocked))
    && (|Wanted(heard, m.blocked)| <= BACKLOG ==> m.taken + m.out == Wanted(heard, m.blocked))
  }

  ghost predicate InRoom(s: State, id: nat, room: string) { room in s.rooms && id in s.rooms[room] }

  ghost predicate RoomsOk(s: State) {
    && (forall room :: room in s.rooms ==> room != "" && s.rooms[room] != {} && s.rooms[room] <= s.members.Keys)
    && forall id, room :: id in s.members ==> (InRoom(s, id, room) <==> s.members[id].room == room && room != "")
  }

  lemma DeliverOk(m: Member, heard: seq<ChatLine>, line: ChatLine)
    requires MemberOk(m, heard)
    ensures MemberOk(Deliver(m, line), heard + [line])
  {
    hide Within;
    var w := Wanted(heard, m.blocked);
    assert (heard + [line])[..|heard + [line]| - 1] == heard;
    if Blocks(m.blocked, line) {
      assert w + [] == w;
    } else {
      WithinPush(m.taken + m.out, w, line);
      WithinShorter(m.taken + m.out, w);
      if |m.out| < BACKLOG {
        Assoc(m.taken, m.out, [line]);
      }
    }
  }

  lemma WithinPush(a: seq<ChatLine>, b: seq<ChatLine>, x: ChatLine)
    requires Within(a, b)
    ensures Within(a, b + [x]) && Within(a + [x], b + [x])
  {
    assert (b + [x])[..|b + [x]| - 1] == b && (a + [x])[..|a + [x]| - 1] == a;
  }

  lemma {:induction false} WithinShorter(a: seq<ChatLine>, b: seq<ChatLine>)
    requires Within(a, b)
    ensures |a| <= |b|
    decreases |b|
  {
    if a != [] {
      if Within(a, b[..|b| - 1]) {
        WithinShorter(a, b[..|b| - 1]);
      } else {
        WithinShorter(a[..|a| - 1], b[..|b| - 1]);
      }
    }
  }

  // ---- rooms ------------------------------------------------------------------------------

  lemma SendRooms(s: State, room: string, line: ChatLine)
    requires RoomsOk(s) && room != ""
    ensures RoomsOk(Send(s, room, line)) && Send(s, room, line).members.Keys == s.members.Keys
    ensures forall id :: id in s.members ==>
              Send(s, room, line).members[id] == if s.members[id].room == room then Deliver(s.members[id], line) else s.members[id]
  {
    hide Accept;
    var t := Send(s, room, line);
    forall id | id in s.members
      ensures t.members[id] == if s.members[id].room == room then Deliver(s.members[id], line) else s.members[id]
    {
      assert InRoom(s, id, room) <==> s.members[id].room == room && room != "";
    }
    forall id, r | id in t.members ensures InRoom(t, id, r) <==> t.members[id].room == r && r != "" {
      assert InRoom(s, id, r) <==> s.members[id].room == r && r != "";
    }
  }

  lemma RemovedRooms(s: State, id: nat)
    requires RoomsOk(s) && id in s.members && s.members[id].room != ""
    ensures RoomsOk(Removed(s, id)) && id in Removed(s, id).members
  {
    var t := Removed(s, id);
    assert InRoom(s, id, s.members[id].room);
    forall x, r | x in t.members ensures InRoom(t, x, r) <==> t.members[x].room == r && r != "" {
      assert InRoom(s, x, r) <==> s.members[x].room == r && r != "";
    }
  }

  lemma PlacedRooms(s: State, id: nat, room: string)
    requires RoomsOk(s) && id in s.members && s.members[id].room == "" && room != ""
    ensures RoomsOk(Placed(s, id, room)) && id in Placed(s, id, room).members
  {
    var t := Placed(s, id, room);
    forall x, r | x in t.members ensures InRoom(t, x, r) <==> t.members[x].room == r && r != "" {
      assert InRoom(s, x, r) <==> s.members[x].room == r && r != "";
    }
  }

  /** What leaving does to every member. */
  lemma LeaveRooms(s: State, id: nat)
    requires RoomsOk(s) && id in s.members
    ensures var t := LeaveRoom(s, id); var m := s.members[id];
            && RoomsOk(t) && t.members.Keys == s.members.Keys
            && t.members[id] == m.(room := "")
            && forall x :: x in s.members && x != id ==>
                 t.members[x] == if m.room != "" && s.members[x].room == m.room then Deliver(s.members[x], Left(m.handle)) else s.members[x]
  {
    hide RoomsOk, Deliver, Left, Send;
    var m := s.members[id];
    if m.room != "" {
      RemovedRooms(s, id);
      SendRooms(Removed(s, id), m.room, Left(m.handle));
    }
  }

  lemma JoinRooms(s: State, id: nat, room: string)
    requires RoomsOk(s) && id in s.members && room != ""
    ensures var t := JoinRoom(s, id, room); var m := s.members[id];
            && RoomsOk(t) && t.members.Keys == s.members.Keys
            && t.members[id] == Deliver(m.(room := room), Joined(m.handle, room))
            && forall x :: x in s.members && x != id ==>
                 var u := if m.room != "" && s.members[x].room == m.room then Deliver(s.members[x], Left(m.handle)) else s.members[x];
                 t.members[x] == if s.members[x].room == room then Deliver(u, Joined(m.handle, room)) else u
  {
    hide RoomsOk, Left, Joined, Send, LeaveRoom, Accept;
    var m := s.members[id];
    LeaveRooms(s, id);
    var t := LeaveRoom(s, id);
    PlacedRooms(t, id, room);
    SendRooms(Placed(t, id, room), room, Joined(m.handle, room));
  }

  lemma StepRooms(s: State, ev: Event)
    requires RoomsOk(s)
    ensures RoomsOk(Step(s, ev))
  {
    hide LeaveRoom, Send, JoinRoom;
    if ev.Arrive? || (ev.Take? && ev.id in s.members) {
      QuietRooms(s, ev);
    } else if ev.id in s.members {
      var m := s.members[ev.id];
      match ev
      case Join(id, room) => if room != "" { JoinRooms(s, id, room); }
      case Leave(id) => LeaveRooms(s, id);
      case Say(_, text) => if m.room != "" { SendRooms(s, m.room, ChatLine(m.userID, text)); }
    }
  }

  lemma QuietRooms(s: State, ev: Event)
    requires RoomsOk(s) && (ev.Arrive? || (ev.Take? && ev.id in s.members))
    ensures RoomsOk(Step(s, ev))
  {
    var t := Step(s, ev);
    forall x, r | x in t.members ensures InRoom(t, x, r) <==> t.members[x].room == r && r != "" {
      if x in s.members {
        assert InRoom(s, x, r) <==> s.members[x].room == r && r != "";
      }
    }
  }

  // ---- lines ---------------------------------------------------------------------------------

  lemma {:induction false} NothingBefore(evs: seq<Event>, id: nat)
    requires id !in Run(evs).members
    ensures HeardBy(evs, id) == [] && !HasArrived(evs, id)
    decreases |evs|
  {
    hide HeardIn, Step;
    if evs != [] {
      var before, ev := evs[..|evs| - 1], evs[|evs| - 1];
      StepMembers(Run(before), ev);
      NothingBefore(before, id);
      assert evs == before + [ev];
    }
  }

  /** Members stay, and only an arrival adds one. */
  lemma StepMembers(s: State, ev: Event)
    ensures Step(s, ev).members.Keys == if ev.Arrive? then s.members.Keys + {ev.id} else s.members.Keys
  {
    hide Deliver, MembersOf;
  }

  lemma NewcomerOk(userID: int, handle: string, blocked: set<int>)
    ensures MemberOk(Member(userID, handle, blocked, [], "", []), [])
  {
  }

  lemma TakeOk(m: Member, heard: seq<ChatLine>)
    requires MemberOk(m, heard) && m.out != []
    ensures MemberOk(m.(out := m.out[1..], taken := m.taken + [m.out[0]]), heard)
  {
    hide Within, Wanted;
    assert m.out == [m.out[0]] + m.out[1..];
    Assoc(m.taken, [m.out[0]], m.out[1..]);
  }

  lemma OneOffered(out: seq<ChatLine>, blocked: set<int>, line: ChatLine)
    ensures OfferAll(out, blocked, [line]) == Accept(out, blocked, line)
    ensures OfferAll(out, blocked, []) == out
  {
    hide Accept;
    assert [line][1..] == [];
  }

  lemma TwoOffered(out: seq<ChatLine>, blocked: set<int>, a: ChatLine, b: ChatLine)
    ensures OfferAll(out, blocked, [a] + [b]) == Accept(Accept(out, blocked, a), blocked, b)
  {
    hide Accept;
    assert ([a] + [b])[1..] == [b];
    OneOffered(Accept(out, blocked, a), blocked, b);
  }

  /** Exactly what an event does to a member's channel: it is offered what it should
      hear, and reading takes the oldest line. */
  lemma StepHeard(s: State, ev: Event, id: nat)
    requires RoomsOk(s) && id in s.members
    ensures id in Step(s, ev).members
    ensures var m, t := s.members[id], Step(s, ev).members[id];
            && t.blocked == m.blocked && t.userID == m.userID
            && if ev == Take(id) && m.out != [] then t.out == m.out[1..] && t.taken == m.taken + [m.out[0]]
               else t.out == OfferAll(m.out, m.blocked, HeardIn(s, ev, id)) && t.taken == m.taken
  {
    hide RoomsOk, LeaveRoom, JoinRoom, Send, Accept, Left, Joined, OfferAll;
    var w := s.members[id];
    OneOffered(w.out, w.blocked, ChatLine(0, ""));
    if !ev.Arrive? && ev.id in s.members {
      var m := s.members[ev.id];
      match ev
      case Join(x, room) =>
        if room != "" {
          JoinRooms(s, x, room);
          JoinOffers(s, x, room, id);
        }
      case Leave(x) =>
        LeaveRooms(s, x);
        OneOffered(w.out, w.blocked, Left(m.handle));
      case Say(_, text) =>
        if m.room != "" {
          SendRooms(s, m.room, ChatLine(m.userID, text));
          OneOffered(w.out, w.blocked, ChatLine(m.userID, text));
        }
      case Take(_) =>
    }
  }

  lemma JoinOffers(s: State, x: nat, room: string, id: nat)
    requires x in s.members && id in s.members && room != ""
    ensures var m, w := s.members[x], s.members[id];
            var left := if m.room != "" && w.room == m.room && x != id then Accept(w.out, w.blocked, Left(m.handle)) else w.out;
            OfferAll(w.out, w.blocked, HeardIn(s, Join(x, room), id))
            == if x == id || w.room == room then Accept(left, w.blocked, Joined(m.handle, room)) else left
  {
    hide Accept, Left, Joined, OfferAll;
    var m, w := s.members[x], s.members[id];
    var left, joined := Left(m.handle), Joined(m.handle, room);
    TwoOffered(w.out, w.blocked, left, joined);
    OneOffered(w.out, w.blocked, left);
    OneOffered(w.out, w.blocked, joined);
    assert [] + [joined] == [joined] && [left] + [] == [left];
  }

  lemma {:induction false} OfferOk(m: Member, heard: seq<ChatLine>, lines: seq<ChatLine>)
    requires MemberOk(m, heard)
    ensures MemberOk(m.(out := OfferAll(m.out, m.blocked, lines)), heard + lines)
    decreases |lines|
  {
    hide MemberOk, Accept;
    if lines == [] {
      assert heard + [] == heard;
    } else {
      DeliverOk(m, heard, lines[0]);
      OfferOk(Deliver(m, lines[0]), heard + [lines[0]], lines[1..]);
      assert heard + [lines[0]] + lines[1..] == heard + lines;
    }
  }

  lemma SameLines(m: Member, t: Member, heard: seq<ChatLine>)
    requires MemberOk(m, heard) && t.out == m.out && t.taken == m.taken && t.blocked == m.blocked
    ensures MemberOk(t, heard)
  {
    hide Within, Wanted;
  }

  lemma StepOk(s: State, ev: Event, id: nat, h: seq<ChatLine>)
    requires RoomsOk(s) && id in s.members && MemberOk(s.members[id], h)
    ensures id in Step(s, ev).members && MemberOk(Step(s, ev).members[id], h + HeardIn(s, ev, id))
  {
    hide RoomsOk, Step, MemberOk, OfferAll;
    var m := s.members[id];
    StepHeard(s, ev, id);
    if ev == Take(id) && m.out != [] {
      TakeOk(m, h);
      assert h + [] == h;
      SameLines(m.(out := m.out[1..], taken := m.taken + [m.out[0]]), Step(s, ev).members[id], h);
    } else {
      OfferOk(m, h, HeardIn(s, ev, id));
      SameLines(m.(out := OfferAll(m.out, m.blocked, HeardIn(s, ev, id))), Step(s, ev).members[id], h + HeardIn(s, ev, id));
    }
  }

  /** The channel holds exactly what the events and the member's reading leave in it: a
      line for it is missed only while 64 wait. */
  lemma {:induction false} ChannelIsExact(evs: seq<Event>, id: nat)
    requires id in Run(evs).members
    ensures var m := Run(evs).members[id]; ChannelBy(evs, id) == Channel(m.out, m.taken)
    decreases |evs|
  {
    hide HeardIn, RoomsOk, LeaveRoom, JoinRoom, Send, OfferAll;
    var before, ev := evs[..|evs| - 1], evs[|evs| - 1];
    var s := Run(before);
    if id in s.members {
      AlwaysOk(before);
      ChannelIsExact(before, id);
      StepHeard(s, ev, id);
      if ev == Take(id) && s.members[id].out == [] {
        NothingHeard(s, id);
      }
    } else {
      StepMembers(s, ev);
    }
  }

  lemma NothingHeard(s: State, id: nat)
    requires id in s.members
    ensures HeardIn(s, Take(id), id) == [] && OfferAll(s.members[id].out, s.members[id].blocked, []) == s.members[id].out
  {
  }

  lemma {:induction false} AlwaysOk(evs: seq<Event>)
    ensures RoomsOk(Run(evs))
    decreases |evs|
  {
    hide Step;
    if evs != [] {
      AlwaysOk(evs[..|evs| - 1]);
      StepRooms(Run(evs[..|evs| - 1]), evs[|evs| - 1]);
    }
  }

  lemma {:induction false} AlwaysHeard(evs: seq<Event>, id: nat)
    requires id in Run(evs).members
    ensures MemberOk(Run(evs).members[id], HeardBy(evs, id))
    decreases |evs|
  {
    hide HeardIn, MemberOk, RoomsOk, LeaveRoom, JoinRoom, Send;
    var before, ev := evs[..|evs| - 1], evs[|evs| - 1];
    var s := Run(before);
    AlwaysOk(before);
    if id in s.members {
      AlwaysHeard(before, id);
      StepOk(s, ev, id, HeardBy(before, id));
    } else {
      StepMembers(s, ev);
      NothingBefore(before, id);
      NewcomerOk(ev.userID, ev.handle, ev.blocked);
    }
  }

  /** The room field is what the events say: the room joined last and not left. */
  lemma {:induction false} RoomIsJoined(evs: seq<Event>, id: nat)
    ensures id in Run(evs).members <==> HasArrived(evs, id)
    ensures RoomBy(evs, id) == if id in Run(evs).members then Run(evs).members[id].room else ""
    decreases |evs|
  {
    hide RoomsOk, LeaveRoom, JoinRoom, Send, Accept, Left, Joined;
    if evs != [] {
      var before, ev := evs[..|evs| - 1], evs[|evs| - 1];
      var s := Run(before);
      assert evs == before + [ev];
      AlwaysOk(before);
      RoomIsJoined(before, id);
      StepMembers(s, ev);
      if !ev.Arrive? && ev.id in s.members && id in s.members {
        FieldAfter(s, ev, id);
      }
    }
  }

  lemma FieldAfter(s: State, ev: Event, id: nat)
    requires RoomsOk(s) && !ev.Arrive? && ev.id in s.members && id in s.members
    ensures id in Step(s, ev).members
    ensures Step(s, ev).members[id].room
            == if ev.Join? && ev.id == id && ev.room != "" then ev.room else if ev.Leave? && ev.id == id then "" else s.members[id].room
  {
    hide RoomsOk, LeaveRoom, JoinRoom, Send, Accept, Left, Joined;
    var m := s.members[ev.id];
    match ev
    case Join(x, room) => if room != "" { JoinRooms(s, x, room); }
    case Leave(x) => LeaveRooms(s, x);
    case Say(_, text) => if m.room != "" { SendRooms(s, m.room, ChatLine(m.userID, text)); }
    case Take(_) =>
  }

  /** In every state the hub can reach: a member's room field names the one room it
      is in, no room is empty, at most 64 lines wait for a member, and what it got and
      what waits for it are, in order, lines of the room it was in at the time, none
      from a user it blocked. They are exactly those that found fewer than 64 waiting,
      so all of them while they are no more than 64. */
  lemma ChatIsSafe(evs: seq<Event>, id: nat)
    requires id in Run(evs).members
    ensures var s := Run(evs); var m := s.members[id]; var heard := HeardBy(evs, id);
            && (forall room :: (room in s.rooms && id in s.rooms[room]) <==> m.room == room && room != "")
            && (forall room :: room in s.rooms ==> s.rooms[room] != {})
            && m.room == RoomBy(evs, id) && ChannelBy(evs, id) == Channel(m.out, m.taken)
            && |m.out| <= BACKLOG
            && Within(m.taken + m.out, heard)
            && (forall l :: l in m.taken + m.out ==> !Blocks(m.blocked, l))
            && (|Wanted(heard, m.blocked)| <= BACKLOG ==> m.taken + m.out == Wanted(heard, m.blocked))
  {
    hide Run, Within, Wanted, Blocks, HeardBy, RoomBy, HasArrived, ChannelBy;
    ChannelIsExact(evs, id);
    AlwaysOk(evs);
    AlwaysHeard(evs, id);
    RoomIsJoined(evs, id);
    var s := Run(evs);
    var m, heard := s.members[id], HeardBy(evs, id);
    forall room ensures (room in s.rooms && id in s.rooms[room]) <==> m.room == room && room != "" {
      assert InRoom(s, id, room) <==> m.room == room && room != "";
    }
    var got := m.taken + m.out;
    WantedWithin(got, heard, m.blocked);
    forall l | l in got ensures !Blocks(m.blocked, l) {
      WithinMember(got, Wanted(heard, m.blocked), l);
      WantedMember(heard, m.blocked, l);
    }
  }

  lemma {:induction false} WithinMember(a: seq<ChatLine>, b: seq<ChatLine>, l: ChatLine)
    requires Within(a, b) && l in a
    ensures l in b
    decreases |b|
  {
    var bb := b[..|b| - 1];
    assert forall x :: x in bb ==> x in b;
    if Within(a, bb) {
      WithinMember(a, bb, l);
    } else if l in a[..|a| - 1] {
      WithinMember(a[..|a| - 1], bb, l);
    } else {
      assert a == a[..|a| - 1] + [a[|a| - 1]];
    }
  }

  lemma {:induction false} WantedMember(lines: seq<ChatLine>, blocked: set<int>, l: ChatLine)
    requires l in Wanted(lines, blocked)
    ensures !Blocks(blocked, l)
    decreases |lines|
  {
    var k := |lines| - 1;
    if l in Wanted(lines[..k], blocked) {
      WantedMember(lines[..k], blocked, l);
    }
  }

  lemma {:induction false} WantedWithin(a: seq<ChatLine>, lines: seq<ChatLine>, blocked: set<int>)
    requires Within(a, Wanted(lines, blocked))
    ensures Within(a, lines)
    decreases |lines|
  {
    hide Blocks;
    if lines != [] {
      var k := |lines| - 1;
      var w, x := Wanted(lines[..k], blocked), lines[k];
      if Blocks(blocked, x) {
        assert w + [] == w;
        WantedWithin(a, lines[..k], blocked);
      } else if a != [] {
        assert (w + [x])[..|w + [x]| - 1] == w;
        if Within(a, w) {
          WantedWithin(a, lines[..k], blocked);
        } else {
          WantedWithin(a[..|a| - 1], lines[..k], blocked);
        }
      }
    }
  }

  // ---- blocks, in plain terms ---------------------------------------------------------------

  /** In every state the hub can reach, what a member got and what waits for it is from
      nobody it blocked. */
  lemma NeverFromBlocked(evs: seq<Event>, id: nat)
    requires id in Run(evs).members
    ensures var m := Run(evs).members[id];
            forall l :: l in m.taken + m.out ==> l.from == SYSTEM || l.from !in m.blocked
  {
    hide Run, Within, Wanted, HeardBy, RoomBy, HasArrived, ChannelBy;
    ChatIsSafe(evs, id);
  }

  /** Someone says something: it is the next line of everybody in the room who has not
      blocked the speaker and has fewer than 64 waiting, and changes nothing for any
      other member. */
  lemma SayReaches(s: State, x: nat, text: string, id: nat)
    requires RoomsOk(s) && x in s.members && id in s.members
    ensures id in Step(s, Say(x, text)).members
    ensures var u, m, t := s.members[x], s.members[id], Step(s, Say(x, text)).members[id];
            var hears := u.room != "" && m.room == u.room && (u.userID == SYSTEM || u.userID !in m.blocked) && |m.out| < 64;
            t == if hears then m.(out := m.out + [ChatLine(u.userID, text)]) else m
  {
    hide RoomsOk, Send;
    var u := s.members[x];
    if u.room != "" {
      SendRooms(s, u.room, ChatLine(u.userID, text));
    }
  }

  /** What is announced is no user's, so nobody's block keeps it out. */
  lemma JoinReaches(s: State, x: nat, room: string, id: nat)
    requires RoomsOk(s) && x in s.members && id in s.members && room != "" && s.members[x].room == ""
    ensures id in Step(s, Join(x, room)).members
    ensures var u, m, t := s.members[x], s.members[id], Step(s, Join(x, room)).members[id];
            && t.room == (if id == x then room else m.room)
            && t.out == if (id == x || m.room == room) && |m.out| < 64 then m.out + [Joined(u.handle, room)] else m.out
  {
    hide RoomsOk, JoinRoom;
    JoinRooms(s, x, room);
    Announces(s.members[x].handle, room);
  }

  lemma LeaveReaches(s: State, x: nat, id: nat)
    requires RoomsOk(s) && x in s.members && id in s.members && x != id
    ensures id in Step(s, Leave(x)).members
    ensures var u, m, t := s.members[x], s.members[id], Step(s, Leave(x)).members[id];
            t == if u.room != "" && m.room == u.room && |m.out| < 64 then m.(out := m.out + [Left(u.handle)]) else m
  {
    hide RoomsOk, LeaveRoom;
    LeaveRooms(s, x);
    Announces(s.members[x].handle, "");
  }

  lemma Announces(handle: string, room: string)
    ensures Joined(handle, room).from == SYSTEM && Left(handle).from == SYSTEM
  {
  }

  // ---- what is read on the screen -------------------------------------------------------------

  lemma CodesThen(code: string, rest: string)
    requires code == "|08" || code == "|14"
    ensures Widths.Chars(code + rest) == Widths.Chars(rest)
  {
    assert code[1..] == "08" || code[1..] == "14";
    Widths.CodeThen(code, rest);
  }

  lemma {:induction false} EscapedThen(s: string, rest: string)
    ensures Widths.Chars(Widths.Escape(s) + rest) == s + Widths.Chars(rest)
    decreases |s|
  {
    hide Widths.Chars, Pipes.IsCode;
    if s == "" {
      assert Widths.Escape(s) + rest == rest && s + Widths.Chars(rest) == Widths.Chars(rest);
    } else {
      var tail := Widths.Escape(s[1..]);
      EscapedThen(s[1..], rest);
      Assoc([s[0]], s[1..], Widths.Chars(rest));
      assert [s[0]] + s[1..] == s;
      if s[0] == '|' {
        Assoc("||", tail, rest);
        Widths.DoubledThen(tail + rest);
      } else {
        Assoc([s[0]], tail, rest);
        Widths.CharThen(s[0], tail + rest);
      }
    }
  }

  lemma StarsThen(rest: string)
    ensures Widths.Chars("*** " + rest) == "*** " + Widths.Chars(rest)
  {
    hide Widths.Chars;
    Widths.CharThen(' ', rest);
    Widths.CharThen('*', " " + rest);
    Widths.CharThen('*', "* " + rest);
    Widths.CharThen('*', "** " + rest);
    assert "*" + ("** " + rest) == "*** " + rest && "*" + ("* " + rest) == "** " + rest && "*" + (" " + rest) == "* " + rest;
    assert "*" + ("*" + ("*" + (" " + Widths.Chars(rest)))) == "*** " + Widths.Chars(rest);
  }

  /** An announcement reads as it says, whatever pipes the handle has in it. */
  lemma AnnouncementReads(handle: string, room: string)
    requires '|' !in room
    ensures Widths.Chars(Joined(handle, room).text) == "*** " + (Letters.StripControl(handle) + (" joined #" + room))
    ensures Widths.Chars(Left(handle).text) == "*** " + (Letters.StripControl(handle) + " left")
  {
    hide Widths.Chars, Widths.Escape;
    Reads(handle, " joined #" + room);
    Reads(handle, " left");
  }

  lemma Reads(handle: string, what: string)
    requires '|' !in what
    ensures Widths.Chars(Announced(handle, what).text) == "*** " + (Letters.StripControl(handle) + what)
  {
    hide Widths.Chars, Widths.Escape, Letters.StripControl, Announced;
    var name := Letters.StripControl(handle);
    var end := "|08" + what;
    Widths.PlainChars(what);
    CodesThen("|08", what);
    EscapedThen(name, end);
    CodesThen("|14", Safe(handle) + end);
    StarsThen("|14" + (Safe(handle) + end));
    CodesThen("|08", "*** " + ("|14" + (Safe(handle) + end)));
    AnnouncedText(handle, what);
  }

  lemma AnnouncedText(handle: string, what: string)
    ensures Announced(handle, what).text == "|08" + ("*** " + ("|14" + (Safe(handle) + ("|08" + what))))
  {
    hide Safe;
    assert "|08*** |14" == "|08" + ("*** " + "|14");
    Assoc("|08*** |14", Safe(handle), "|08");
    Assoc("|08*** |14", Safe(handle) + "|08", what);
    Assoc(Safe(handle), "|08", what);
    Assoc("*** ", "|14", Safe(handle) + ("|08" + what));
    Assoc("|08", "*** |14", Safe(handle) + ("|08" + what));
  }
}
