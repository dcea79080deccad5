/**
 The rooms of the socket server: two maps, from rooms to channels and from channels to rooms, that
 describe one relation.
 */
module RoomIndex {

  /** `handle` stands for the identity of the channel object. */
  datatype Channel = Channel(handle: nat, sid: string, attached: bool)

  datatype Index = Index(channels: map<string, set<Channel>>, rooms: map<Channel, set<string>>)

  datatype Op = Join(c: Channel, room: string) | Leave(c: Channel, room: string) | Disconnect(c: Channel)

  // One relation, two maps

  predicate InRoom(ix: Index, c: Channel, room: string) {
    room in ix.channels && c in ix.channels[room]
  }

  predicate HasRoom(ix: Index, c: Channel, room: string) {
    c in ix.rooms && room in ix.rooms[c]
  }

  /** Both directions agree and no room is empty. A channel may keep an empty set of rooms. */
  ghost predicate Consistent(ix: Index) {
    && (forall room :: room in ix.channels ==> ix.channels[room] != {})
    && (forall c, room :: InRoom(ix, c, room) <==> HasRoom(ix, c, room))
  }

  ghost function Members(ix: Index, room: string): set<Channel> {
    set c | c in ix.rooms && room in ix.rooms[c]
  }

  ghost function InhabitedRooms(ix: Index): set<string> {
    set c, room | c in ix.rooms && room in ix.rooms[c] :: room
  }

  /** What an operation does to the relation. */
  ghost predicate Related(ix: Index, op: Op, c: Channel, room: string) {
    match op
    case Join(c', room') => (c == c' && room == room') || InRoom(ix, c, room)
    case Leave(c', room') => InRoom(ix, c, room) && !(c == c' && room == room')
    case Disconnect(c') => InRoom(ix, c, room) && c != c'
  }

  ghost predicate Takes(ix: Index, op: Op, ix': Index) {
    && Consistent(ix')
    && (forall c, room :: InRoom(ix', c, room) <==> Related(ix, op, c, room))
    && (op.Disconnect? ==> op.c !in ix'.rooms)
  }

  // Whole histories

  /** `states` starts empty and takes one operation after the other. */
  ghost predicate History(states: seq<Index>, ops: seq<Op>) {
    && |states| == |ops| + 1
    && states[0] == Index(map[], map[])
    && forall i :: 0 <= i < |ops| ==> Takes(states[i], ops[i], states[i + 1])
  }

  /** `op` takes `c` out of `room`. */
  predicate Removes(op: Op, c: Channel, room: string) {
    op == Leave(c, room) || op == Disconnect(c)
  }

  /** `c` joined `room` before step `n` and was not taken out since. */
  ghost predicate JoinedAndStayed(ops: seq<Op>, n: nat, c: Channel, room: string)
    requires n <= |ops|
  {
    exists i :: 0 <= i < n && ops[i] == Join(c, room) && forall j :: i < j < n ==> !Removes(ops[j], c, room)
  }

  /** After any history, a channel is in a room exactly when its last join of that room was not followed
      by a leave or a disconnect; both maps say so. */
  lemma {:induction false} MembershipIff(states: seq<Index>, ops: seq<Op>, n: nat, c: Channel, room: string)
    requires History(states, ops) && n <= |ops|
    ensures Consistent(states[n])
    ensures InRoom(states[n], c, room) <==> JoinedAndStayed(ops, n, c, room)
    ensures HasRoom(states[n], c, room) <==> JoinedAndStayed(ops, n, c, room)
  {
    if n > 0 {
      MembershipIff(states, ops, n - 1, c, room);
      var op := ops[n - 1];
      assert Takes(states[n - 1], op, states[n]);
      if op == Join(c, room) {
        assert ops[n - 1] == Join(c, room);
      } else if !Removes(op, c, room) && JoinedAndStayed(ops, n - 1, c, room) {
        var i :| 0 <= i < n - 1 && ops[i] == Join(c, room) && forall j :: i < j < n - 1 ==> !Removes(ops[j], c, room);
        assert forall j :: i < j < n ==> !Removes(ops[j], c, room);
      }
    }
  }

  // The server

  class Server {
    var channels: map<string, set<Channel>>
    var rooms: map<Channel, set<string>>
    var sids: map<string, Channel>

    constructor ()
      ensures Abs() == Index(map[], map[]) && sids == map[] && Consistent(Abs())
    {
      channels, rooms, sids := map[], map[], map[];
    }

    function Abs(): Index
      reads this
    {
      Index(channels, rooms)
    }

    /** `onConnectStore`. */
    method Connect(c: Channel)
      modifies this`sids
      ensures sids == old(sids)[c.sid := c]
    {
      sids := sids[c.sid := c];
    }

    method JoinRoom(c: Channel, room: string) returns (ok: bool)
      requires Consistent(Abs())
      modifies this`channels, this`rooms
      ensures ok == c.attached
      ensures ok ==> Takes(old(Abs()), Join(c, room), Abs())
      ensures ok ==> room in channels && c in channels[room] && c in rooms && room in rooms[c]
      ensures forall d, r :: d != c || r != room ==> (InRoom(Abs(), d, r) <==> InRoom(old(Abs()), d, r))
      ensures !ok ==> Abs() == old(Abs())
    {
      if !c.attached {
        return false;
      }
      if room !in channels {
        channels := channels[room := {}];
      }
      if c !in rooms {
        rooms := rooms[c := {}];
      }
      channels := channels[room := channels[room] + {c}];
      rooms := rooms[c := rooms[c] + {room}];
      forall d, r ensures HasRoom(Abs(), d, r) <==> Related(old(Abs()), Join(c, room), d, r) {
        assert InRoom(old(Abs()), d, r) <==> HasRoom(old(Abs()), d, r);
      }
      return true;
    }

    method LeaveRoom(c: Channel, room: string) returns (ok: bool)
      requires Consistent(Abs())
      modifies this`channels, this`rooms
      ensures ok == c.attached
      ensures ok ==> Takes(old(Abs()), Leave(c, room), Abs())
      ensures ok ==> (room in channels ==> c !in channels[room]) && (c in rooms ==> room !in rooms[c])
      ensures forall d, r :: d != c || r != room ==> (InRoom(Abs(), d, r) <==> InRoom(old(Abs()), d, r))
      ensures !ok ==> Abs() == old(Abs())
    {
      if !c.attached {
        return false;
      }
      if room in channels {
        channels := channels[room := channels[room] - {c}];
        if |channels[room]| == 0 {
          channels := channels - {room};
        }
      }
      if c in rooms {
        rooms := rooms[c := rooms[c] - {room}];
      }
      forall d, r ensures HasRoom(Abs(), d, r) <==> Related(old(Abs()), Leave(c, room), d, r) {
        assert InRoom(old(Abs()), d, r) <==> HasRoom(old(Abs()), d, r);
      }
      return true;
    }

    /** `onDisconnectCleanup`. */
    method OnDisconnectCleanup(c: Channel)
      requires Consistent(Abs())
      modifies this
      ensures Takes(old(Abs()), Disconnect(c), Abs())
      ensures c !in rooms && forall room :: room in channels ==> c !in channels[room]
      ensures forall d, r :: d != c ==> (InRoom(Abs(), d, r) <==> InRoom(old(Abs()), d, r))
      ensures sids == old(sids) - {c.sid}
    {
      if c in rooms {
        var rest := rooms[c];
        while rest != {}
          invariant rest <= old(rooms)[c] && rooms == old(rooms) && sids == old(sids)
          invariant forall room :: room in channels ==> channels[room] != {}
          invariant forall d, room :: InRoom(Abs(), d, room) <==>
                      InRoom(old(Abs()), d, room) && !(d == c && room !in rest)
          decreases |rest|
        {
          var room :| room in rest;
          rest := rest - {room};
          assert InRoom(old(Abs()), c, room);
          if room in channels {
            var curRoom := channels[room] - {c};
            if |curRoom| == 0 {
              channels := channels - {room};
            } else {
              channels := channels[room := curRoom];
            }
          }
        }
        rooms := rooms - {c};
      }
      forall d, r
        ensures HasRoom(Abs(), d, r) <==> Related(old(Abs()), Disconnect(c), d, r)
        ensures InRoom(Abs(), d, r) <==> Related(old(Abs()), Disconnect(c), d, r)
      {
        assert InRoom(old(Abs()), d, r) <==> HasRoom(old(Abs()), d, r);
      }
      assert Consistent(Abs());
      forall room | room in channels ensures c !in channels[room] {
        assert !InRoom(Abs(), c, room);
      }
      sids := sids - {c.sid};
    }

    // Queries

    method Amount(room: string) returns (n: nat)
      requires Consistent(Abs())
      ensures n == |Members(Abs(), room)|
    {
      forall c ensures c in Members(Abs(), room) <==> InRoom(Abs(), c, room) {
        assert InRoom(Abs(), c, room) <==> HasRoom(Abs(), c, room);
      }
      if room !in channels {
        assert Members(Abs(), room) == {};
        return 0;
      }
      assert Members(Abs(), room) == channels[room];
      return |channels[room]|;
    }

    /** Every channel of the room once. */
    method List(room: string) returns (members: seq<Channel>)
      ensures forall i, j :: 0 <= i < j < |members| ==> members[i] != members[j]
      ensures forall c :: c in members <==> InRoom(Abs(), c, room)
    {
      members := [];
      if room !in channels {
        return;
      }
      var rest := channels[room];
      while rest != {}
        invariant rest <= channels[room]
        invariant forall i, j :: 0 <= i < j < |members| ==> members[i] != members[j]
        invariant forall c :: c in members <==> c in channels[room] && c !in rest
        decreases |rest|
      {
        var c :| c in rest;
        rest := rest - {c};
        members := members + [c];
      }
    }

    /** The rooms with at least one channel. */
    method AmountOfRooms() returns (n: nat)
      requires Consistent(Abs())
      ensures n == |InhabitedRooms(Abs())|
    {
      forall room | room in channels ensures room in InhabitedRooms(Abs()) {
        var c :| c in channels[room];
        assert InRoom(Abs(), c, room);
        assert HasRoom(Abs(), c, room);
      }
      forall room | room in InhabitedRooms(Abs()) ensures room in channels {
        var c :| c in rooms && room in rooms[c];
        assert HasRoom(Abs(), c, room);
      }
      assert InhabitedRooms(Abs()) == channels.Keys;
      return |channels|;
    }
  }
}
