/**
 * How each handler changes the directory, as functions of the directory
 * before the request, and what those changes preserve. The handler methods
 * in module Server are specified by these functions.
 */
module Transitions {
  import opened Wrappers
  import opened Strings
  import opened Sequences
  import opened OrderedMaps
  import opened Rooms
  import opened Protocol

  /** A connection's room association: `socket.roomId` and `socket.nickname`. */
  datatype Binding = Binding(roomId: RoomId, nickname: Nickname)

  /** `socket.roomId && socket.nickname`: both parts are set and non-empty. */
  predicate Bound(b: Option<Binding>) {
    b.Some? && b.value.roomId != "" && b.value.nickname != ""
  }

  // ---------------------------------------------------------------- createRoom

  /** `!name || name.trim() === ''`: there is no usable room name. */
  predicate CreateRejected(name: Option<string>) {
    Falsy(name) || Trim(name.value) == ""
  }

  /** The room `createRoom` stores: trimmed name, trimmed or empty description, nobody in it. */
  function NewRoom(id: RoomId, name: string, description: Option<string>, createdAt: string): (r: Room)
    requires Trim(name) != ""
    ensures r.id == id && r.createdAt == createdAt && r.members == [] && RoomOk(r)
  {
    var description := if Falsy(description) then "" else Trim(description.value);
    Room(id, Trim(name), description, createdAt, [])
  }

  /**
   * Creating a room keeps the directory well formed. Under a fresh id the
   * room is added at the end of the listing with no members; every stored
   * room is kept.
   */
  lemma CreateKeepsWellFormed(t: RoomTable, id: RoomId, name: string, description: Option<string>, createdAt: string)
    requires t.Valid() && WellFormed(t) && Trim(name) != ""
    ensures WellFormed(t.Set(id, NewRoom(id, name, description, createdAt)))
    ensures id !in t.table ==>
      && t.Set(id, NewRoom(id, name, description, createdAt)).keys == t.keys + [id]
      && Listing(t.Set(id, NewRoom(id, name, description, createdAt)))
         == Listing(t) + [RoomSummary(id, Trim(name), NewRoom(id, name, description, createdAt).description, createdAt, 0)]
  {
    var r := NewRoom(id, name, description, createdAt);
    if id !in t.table {
      ListingAfterInsert(t, id, r);
    }
  }

  // ------------------------------------------------------------------ joinRoom

  /** The directory after `room.members.push(nickname)` on the room stored under `rid`. */
  function Joined(t: RoomTable, rid: RoomId, nick: Nickname): (u: RoomTable)
    requires t.Valid() && rid in t.table
    ensures u.Valid()
  {
    t.Set(rid, t.table[rid].(members := t.table[rid].members + [nick]))
  }

  /**
   * A join that passed the three checks appends the nickname at the end of
   * that room's members, leaves every other room and the iteration order as
   * they were, and keeps every member list free of repeats.
   */
  lemma JoinKeepsWellFormed(t: RoomTable, rid: RoomId, nick: Nickname)
    requires t.Valid() && WellFormed(t) && rid in t.table
    requires nick != "" && nick !in t.table[rid].members
    ensures WellFormed(Joined(t, rid, nick))
    ensures Joined(t, rid, nick).keys == t.keys
    ensures Joined(t, rid, nick).table[rid].members == t.table[rid].members + [nick]
    ensures forall k | k in t.table && k != rid :: Joined(t, rid, nick).table[k] == t.table[k]
  {
    var ms := t.table[rid].members;
    AppendFresh(ms, nick);
    assert RoomOk(t.table[rid]);
  }

  /** After a join, the listing differs only in that room's summary, whose count is one higher. */
  lemma JoinListing(t: RoomTable, rid: RoomId, nick: Nickname)
    requires t.Valid() && rid in t.table
    ensures Listing(Joined(t, rid, nick))
      == Listing(t)[IndexOf(t.keys, rid) := Summary(t.table[rid]).(memberCount := |t.table[rid].members| + 1)]
  {
    ListingAfterReplace(t, rid, t.table[rid].(members := t.table[rid].members + [nick]));
  }

  // ------------------------------------------------------- leaveRoom, disconnect

  /**
   * A leave or disconnect finds its member: the connection is bound, its
   * room still exists, and its nickname is among that room's members.
   */
  predicate Present(t: RoomTable, b: Option<Binding>) {
    Bound(b) && b.value.roomId in t.table && b.value.nickname in t.table[b.value.roomId].members
  }

  /** The members left after `members.splice(members.indexOf(nickname), 1)`. */
  function Remaining(t: RoomTable, b: Option<Binding>): (left: seq<Nickname>)
    requires Present(t, b)
    ensures |left| == |t.table[b.value.roomId].members| - 1
  {
    var ms := t.table[b.value.roomId].members;
    RemoveAt(ms, IndexOf(ms, b.value.nickname))
  }

  /**
   * The directory after a leave or disconnect: unchanged unless the member
   * is present; otherwise the member is removed, and the room is deleted
   * when nobody is left in it.
   */
  function Departed(t: RoomTable, b: Option<Binding>): (u: RoomTable)
    requires t.Valid()
    ensures u.Valid()
  {
    if !Present(t, b) then t
    else
      var rid := b.value.roomId;
      var left := Remaining(t, b);
      if left == [] then t.Delete(rid) else t.Set(rid, t.table[rid].(members := left))
  }

  /**
   * What a leave or disconnect emits: nothing unless the member is present;
   * otherwise `memberLeft` and `membersUpdate` to the room, the listing with
   * the shortened room to everyone, and, when the room was emptied, the
   * listing without it to everyone.
   */
  function DepartureEvents(t: RoomTable, b: Option<Binding>): (e: seq<Event>)
    requires t.Valid()
    ensures e == [] <==> !Present(t, b)
    ensures Present(t, b) ==> |e| == if Remaining(t, b) == [] then 4 else 3
    ensures Present(t, b) ==>
      && e[0] == Emit(ToRoom(b.value.roomId), MemberLeft(b.value.nickname))
      && e[1] == Emit(ToRoom(b.value.roomId), MembersUpdate(Remaining(t, b)))
  {
    if !Present(t, b) then []
    else
      var rid, nick := b.value.roomId, b.value.nickname;
      var left := Remaining(t, b);
      var kept := t.Set(rid, t.table[rid].(members := left));
      [ Emit(ToRoom(rid), MemberLeft(nick)),
        Emit(ToRoom(rid), MembersUpdate(left)),
        Emit(ToEveryone, RoomsList(Listing(kept))) ]
      + if left == [] then [Emit(ToEveryone, RoomsList(Listing(kept.Delete(rid))))] else []
  }

  /**
   * A leave is a no-op when the connection is not bound, its room is gone,
   * or its nickname is not a member: nothing changes and nothing is emitted.
   */
  lemma DepartureWithoutMember(t: RoomTable, b: Option<Binding>)
    requires t.Valid()
    requires !Bound(b) || b.value.roomId !in t.table || b.value.nickname !in t.table[b.value.roomId].members
    ensures Departed(t, b) == t && DepartureEvents(t, b) == []
  {
  }

  /**
   * In a well-formed directory a departure removes exactly the leaving
   * nickname, at its index, and keeps the other members in their order.
   */
  lemma DepartureRemovesMember(t: RoomTable, b: Option<Binding>)
    requires t.Valid() && WellFormed(t) && Present(t, b)
    ensures var ms, nick := t.table[b.value.roomId].members, b.value.nickname;
      && 0 <= IndexOf(ms, nick)
      && Remaining(t, b) == ms[..IndexOf(ms, nick)] + ms[IndexOf(ms, nick) + 1..]
      && nick !in Remaining(t, b)
      && (forall y :: y != nick ==> (y in Remaining(t, b) <==> y in ms))
      && NoDuplicates(Remaining(t, b))
  {
    var ms := t.table[b.value.roomId].members;
    assert RoomOk(t.table[b.value.roomId]);
    RemoveAtWithoutDuplicates(ms, IndexOf(ms, b.value.nickname));
  }

  /** A leave or disconnect keeps the directory well formed. */
  lemma DepartureKeepsWellFormed(t: RoomTable, b: Option<Binding>)
    requires t.Valid() && WellFormed(t)
    ensures WellFormed(Departed(t, b))
  {
    if Present(t, b) {
      var rid := b.value.roomId;
      var left := Remaining(t, b);
      DepartureRemovesMember(t, b);
      var r := t.table[rid];
      assert RoomOk(r);
      forall i | 0 <= i < |left| ensures left[i] != "" {
        assert left[i] in r.members;
      }
      assert RoomOk(r.(members := left));
    }
  }

  /**
   * Garbage collection: a departure deletes the room exactly when the
   * leaving member was its only member; every other room stays, unchanged
   * and in its place.
   */
  lemma DepartureCollectsEmptyRoom(t: RoomTable, b: Option<Binding>)
    requires t.Valid() && Present(t, b)
    ensures var rid, nick := b.value.roomId, b.value.nickname;
      && (rid !in Departed(t, b).table <==> t.table[rid].members == [nick])
      && (rid in Departed(t, b).table ==> Departed(t, b).keys == t.keys)
      && (rid !in Departed(t, b).table ==> Departed(t, b).keys == RemoveAt(t.keys, IndexOf(t.keys, rid)))
      && forall k | k != rid :: (k in Departed(t, b).table <==> k in t.table)
                                && (k in t.table ==> Departed(t, b).table[k] == t.table[k])
  {
    var ms, nick := t.table[b.value.roomId].members, b.value.nickname;
    var i := IndexOf(ms, nick);
    if |ms| == 1 {
      assert ms == [nick];
    }
  }

  /** A departure's last message carries the listing of the new directory to everyone. */
  lemma DepartureBroadcasts(t: RoomTable, b: Option<Binding>)
    requires t.Valid() && Present(t, b)
    ensures var e := DepartureEvents(t, b);
      |e| >= 3 && e[|e| - 1] == Emit(ToEveryone, RoomsList(Listing(Departed(t, b))))
  {
    var rid := b.value.roomId;
    if Remaining(t, b) == [] {
      SetThenDelete(t, rid, t.table[rid].(members := []));
    }
  }

  /**
   * When a departure empties its room, the listing broadcast before the
   * room is deleted still lists it, with no members.
   */
  lemma DepartureListsEmptiedRoom(t: RoomTable, b: Option<Binding>)
    requires t.Valid() && Present(t, b) && Remaining(t, b) == []
    ensures var e, rid := DepartureEvents(t, b), b.value.roomId;
      && |e| == 4 && e[2] == Emit(ToEveryone, e[2].message) && e[2].message.RoomsList?
      && Summary(t.table[rid].(members := [])) in e[2].message.summaries
  {
    var rid := b.value.roomId;
    var kept := t.Set(rid, t.table[rid].(members := []));
    var i := IndexOf(t.keys, rid);
    assert kept.keys[i] == rid;
    assert Listing(kept)[i] == Summary(t.table[rid].(members := []));
  }

  /**
   * Leaving twice with the same binding, which leave and disconnect never
   * clear, changes nothing the second time and emits nothing.
   */
  lemma DepartureIdempotent(t: RoomTable, b: Option<Binding>)
    requires t.Valid() && WellFormed(t)
    ensures Departed(Departed(t, b), b) == Departed(t, b)
    ensures DepartureEvents(Departed(t, b), b) == []
  {
    if Present(t, b) {
      DepartureRemovesMember(t, b);
    }
  }

  /**
   * Join and leave are inverse: joining a room under a fresh nickname and
   * leaving with the binding that join made restores the directory, except
   * that a room which was empty before the join is now deleted.
   */
  lemma JoinThenLeave(t: RoomTable, rid: RoomId, nick: Nickname)
    requires t.Valid() && rid in t.table && rid != "" && nick != "" && nick !in t.table[rid].members
    ensures Departed(Joined(t, rid, nick), Some(Binding(rid, nick)))
      == if t.table[rid].members == [] then t.Delete(rid) else t
  {
    var ms := t.table[rid].members;
    var pushed := t.table[rid].(members := ms + [nick]);
    var j := t.Set(rid, pushed);
    var b := Some(Binding(rid, nick));
    assert j == Joined(t, rid, nick) && j.table[rid] == pushed;
    IndexOfPushed(ms, nick);
    assert Remaining(j, b) == ms;
    if ms == [] {
      assert Departed(j, b) == j.Delete(rid);
      SetThenDelete(t, rid, pushed);
    } else {
      assert Departed(j, b) == j.Set(rid, t.table[rid]);
      SetRestores(t, rid, pushed);
    }
  }
}
