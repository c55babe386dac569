/**
 The hub of internal/bbs/chat.go over the members themselves: rooms hold references,
 and a send changes the channel of each member it reaches.
 */
module ChatHubs {
  import opened Chats

  class Caller {
    const userID: int
    const handle: string
    const blocked: set<int>
    var out: seq<ChatLine>
    var room: string

    constructor (userID: int, handle: string, blocked: set<int>)
      ensures this.userID == userID && this.handle == handle && this.blocked == blocked && out == [] && room == ""
    {
      this.userID, this.handle, this.blocked, out, room := userID, handle, blocked, [], "";
    }

    /** What is in the channel after a line was sent to some room. */
    ghost function Gets(line: ChatLine, sentTo: string): seq<ChatLine>
      reads this
    {
      if room == sentTo then Accept(out, blocked, line) else out
    }
  }

  class Hub {
    var rooms: map<string, set<Caller>>
    /** Everybody who was ever in a room. */
    ghost var all: set<Caller>

    ghost predicate InRoom(m: Caller, room: string)
      reads this
    {
      room in rooms && m in rooms[room]
    }

    ghost predicate Valid()
      reads this, all
    {
      && (forall r :: r in rooms ==> r != "" && rooms[r] != {} && rooms[r] <= all)
      && forall m, r :: m in all ==> (InRoom(m, r) <==> m.room == r && r != "")
    }

    constructor ()
      ensures Valid() && rooms == map[] && all == {}
    {
      rooms, all := map[], {};
    }

    /** A member that cannot keep up misses the line; nobody waits for it. */
    method Send(room: string, line: ChatLine)
      requires Valid() && room != ""
      modifies all`out
      ensures Valid()
      ensures forall x :: x in all ==> x.out == old(x.Gets(line, room))
    {
      hide Accept;
      var todo := if room in rooms then rooms[room] else {};
      ghost var members := todo;
      assert forall x :: x in all ==> (x in members <==> InRoom(x, room));
      while todo != {}
        invariant todo <= members
        invariant forall x :: x in all && x !in todo ==> x.out == old(x.Gets(line, room))
        invariant forall x :: x in todo ==> x.out == old(x.out)
        decreases todo
      {
        var m :| m in todo;
        todo := todo - {m};
        Push(m, line);
      }
    }

    method Push(m: Caller, line: ChatLine)
      modifies m`out
      ensures m.out == Accept(old(m.out), m.blocked, line)
      ensures m.out == if (line.from == SYSTEM || line.from !in m.blocked) && |old(m.out)| < 64 then old(m.out) + [line] else old(m.out)
    {
      if line.from != SYSTEM && line.from in m.blocked {
        return;
      }
      if |m.out| < BACKLOG {
        m.out := m.out + [line];
      }
    }

    /** The room is left before its last members hear of it. */
    method LeaveLocked(m: Caller)
      requires Valid() && m in all
      modifies this`rooms, m`room, all`out
      ensures Valid() && m.room == ""
      ensures forall x :: x in all && (x == m || old(m.room) == "") ==> x.out == old(x.out)
      ensures old(m.room) != "" ==> forall x :: x in all && x != m ==> x.out == old(x.Gets(Left(m.handle), m.room))
    {
      hide Accept, Left;
      if m.room == "" {
        return;
      }
      var room := m.room;
      assert InRoom(m, room);
      Take(m, room);
      Send(room, Left(m.handle));
    }

    method Take(m: Caller, room: string)
      requires Valid() && m in all && m.room == room && room != ""
      modifies this`rooms, m`room
      ensures Valid() && m.room == ""
    {
      assert InRoom(m, room);
      var left := rooms[room] - {m};
      if left == {} {
        rooms := rooms - {room};
      } else {
        rooms := rooms[room := left];
      }
      m.room := "";
      forall x, r | x in all ensures InRoom(x, r) <==> x.room == r && r != "" {
        assert old(InRoom(x, r)) <==> old(x.room) == r && r != "";
        assert x in left <==> x != m && old(InRoom(x, room));
      }
    }

    method Leave(m: Caller)
      requires Valid() && m in all
      modifies this`rooms, m`room, all`out
      ensures Valid() && m.room == ""
      ensures old(m.room) != "" ==> forall x :: x in all && x != m ==> x.out == old(x.Gets(Left(m.handle), m.room))
    {
      LeaveLocked(m);
    }

    method Put(m: Caller, room: string)
      requires Valid() && m in all && m.room == "" && room != ""
      modifies this`rooms, m`room
      ensures Valid() && m.room == room
    {
      var members := if room in rooms then rooms[room] else {};
      rooms := rooms[room := members + {m}];
      m.room := room;
      forall x, r | x in all ensures InRoom(x, r) <==> x.room == r && r != "" {
        assert old(InRoom(x, r)) <==> old(x.room) == r && r != "";
      }
    }

    /** Callers check that the room has a name. A member new to the hub is in no room. */
    method Join(m: Caller, room: string)
      requires Valid() && room != "" && (m in all || m.room == "")
      modifies this, m, all
      ensures Valid() && m.room == room && all == old(all) + {m}
      ensures m.out == Accept(old(m.out), m.blocked, Joined(m.handle, room))
      ensures forall x :: x in all && x != m ==>
                x.room == old(x.room)
                && var heard := if old(m.room) == "" then old(x.out) else old(x.Gets(Left(m.handle), m.room));
                   x.out == if x.room == room then Accept(heard, x.blocked, Joined(m.handle, room)) else heard
    {
      hide Accept, Left, Joined;
      Admit(m);
      LeaveLocked(m);
      Put(m, room);
      Send(room, Joined(m.handle, room));
    }

    ghost method Admit(m: Caller)
      requires Valid() && (m in all || m.room == "")
      modifies this`all
      ensures Valid() && all == old(all) + {m}
    {
      all := all + {m};
      assert forall r :: r in rooms ==> rooms[r] <= old(all);
      forall x, r | x in all ensures InRoom(x, r) <==> x.room == r && r != "" {
        if x in old(all) {
          assert old(InRoom(x, r)) <==> x.room == r && r != "";
        }
      }
    }

    method Say(m: Caller, text: string)
      requires Valid() && m in all
      modifies all`out
      ensures Valid()
      ensures forall x :: x in all ==>
                x.out == if m.room != "" && x.room == m.room && (m.userID == SYSTEM || m.userID !in x.blocked) && |old(x.out)| < 64
                         then old(x.out) + [ChatLine(m.userID, text)] else old(x.out)
    {
      if m.room != "" {
        Send(m.room, ChatLine(m.userID, text));
      }
    }
  }
}
