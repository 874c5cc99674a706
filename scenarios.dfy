/**
 * Call sequences of the handlers, verified against the handlers' contracts
 * alone. They show what a client can rely on, and what the
 * binding that leave and disconnect never clear lets a stale connection do.
 */
module Scenarios {
  import opened Wrappers
  import opened Rooms
  import opened Protocol
  import opened Transitions
  import opened Server

  /** A fresh directory has no rooms; creating one with a blank name is refused. */
  method CreateBlank() {
    var d := new Directory();
    var refused, out := d.CreateRoom(Some(""), Some("notes"), "room_1", "t0");
    assert refused == Failure(EmptyName);
    assert d.rooms.keys == [];
  }

  /**
   * In a room nobody has joined yet: join as "Ken", fail to join again as
   * "Ken" from a second connection, then leave: the room is gone.
   */
  method JoinTwiceThenLeave(d: Directory, rid: RoomId)
    requires d.Valid() && rid != "" && rid in d.rooms.table && d.rooms.table[rid].members == []
    modifies d
  {
    var ken := new Session();
    var joined, _ := d.JoinRoom(ken, Some(rid), Some("Ken"));
    assert joined.Success? && joined.value.members == ["Ken"];
    assert ken.binding == Some(Binding(rid, "Ken"));

    var other := new Session();
    var again, _ := d.JoinRoom(other, Some(rid), Some("Ken"));
    assert again == Failure(NicknameTaken);
    assert other.binding == None;

    ghost var before := d.rooms;
    var _ := d.LeaveRoom(ken);
    DepartureCollectsEmptyRoom(before, ken.binding);
    assert rid !in d.rooms.table;
    assert ken.binding == Some(Binding(rid, "Ken"));
  }

  /**
   * A connection still bound to "Ken" in a room whose only member is "Cy",
   * as after joining as "Ken" and leaving: a second connection can join
   * under "Ken", since "Ken" is no longer a member.
   */
  method StaleBinding(d: Directory, first: Session, rid: RoomId) returns (second: Session)
    requires d.Valid() && rid != "" && rid in d.rooms.table && d.rooms.table[rid].members == ["Cy"]
    requires first.binding == Some(Binding(rid, "Ken"))
    modifies d
    ensures d.Valid() && rid in d.rooms.table && d.rooms.table[rid].members == ["Cy", "Ken"]
    ensures first.binding == Some(Binding(rid, "Ken")) && second.binding == Some(Binding(rid, "Ken"))
  {
    second := new Session();
    ghost var t := d.rooms;
    var _, _ := d.JoinRoom(second, Some(rid), Some("Ken"));
    assert d.rooms.table == t.table[rid := t.table[rid].(members := ["Cy"] + ["Ken"])];
  }

  /**
   * Two connections bound to "Ken" in the same room, as `StaleBinding`
   * leaves them: the stale one's disconnect removes the other one's
   * membership, though the other one is still bound to the room.
   */
  method StaleDisconnect(d: Directory, first: Session, second: Session, rid: RoomId)
    requires d.Valid() && rid != "" && rid in d.rooms.table && d.rooms.table[rid].members == ["Cy", "Ken"]
    requires first.binding == Some(Binding(rid, "Ken")) && second.binding == Some(Binding(rid, "Ken"))
    modifies d
  {
    ghost var t := d.rooms;
    var _ := d.Disconnect(first);
    DepartureRemovesMember(t, first.binding);
    assert d.rooms.table[rid].members == ["Cy"];
    assert second.binding == Some(Binding(rid, "Ken"));
  }

  /**
   * The second connection of `StaleDisconnect`, bound to "Ken" in a room where
   * "Ken" is no longer a member: its own leave does nothing and emits nothing.
   */
  method StaleLeave(d: Directory, second: Session, rid: RoomId)
    requires d.Valid() && rid in d.rooms.table && d.rooms.table[rid].members == ["Cy"]
    requires second.binding == Some(Binding(rid, "Ken"))
    modifies d
  {
    ghost var t := d.rooms;
    var out := d.LeaveRoom(second);
    assert out == [] && d.rooms == t;
  }

  /**
   * A connection bound to "Ken" in room `a` joins room `b` as "Ken": the
   * binding moves to `b` and "Ken" stays a member of `a`, where no later
   * leave of this connection removes it.
   */
  method Rebind(d: Directory, s: Session, a: RoomId, b: RoomId)
    requires d.Valid() && a != b && b != "" && a in d.rooms.table && b in d.rooms.table
    requires "Ken" in d.rooms.table[a].members && "Ken" !in d.rooms.table[b].members
    requires s.binding == Some(Binding(a, "Ken"))
    modifies d, s
  {
    var joined, _ := d.JoinRoom(s, Some(b), Some("Ken"));
    assert joined.Success?;
    assert s.binding == Some(Binding(b, "Ken"));
    assert "Ken" in d.rooms.table[a].members;

    ghost var t := d.rooms;
    var _ := d.LeaveRoom(s);
    DepartureCollectsEmptyRoom(t, s.binding);
    assert a in d.rooms.table && "Ken" in d.rooms.table[a].members;
  }
}
