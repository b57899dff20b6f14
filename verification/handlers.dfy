/** The state effects of the per-connection socket handlers
    (server/src/socket/handlers.ts). The module-level registries become one
    `Server` value; each connection's captured `currentRoom`/`currentUser`
    become a `Session` value. A handler takes both and returns both, with
    the operation it broadcasts to the room, if any. Socket emits other than
    that broadcast are not modelled. */
module Handlers {
  import opened Wrappers
  import opened Elements
  import opened Operations
  import opened BoardManager
  import opened UndoManager
  import opened CursorColors
  import Listing

  /** `ConnectedUser`. */
  datatype User = User(displayName: string, cursorColor: string)

  /** `roomUsers`: room token -> socket id -> user. */
  type Rooms = map<string, map<string, User>>

  datatype Server = Server(boards: Registry, stacks: Stacks, rooms: Rooms, colorIndex: nat)

  /** One connection: its socket id, `currentRoom` and `currentUser`. */
  datatype Session = Session(socketId: string, room: Option<string>, user: Option<User>)

  datatype Outcome = Outcome(server: Server, session: Session, broadcast: Option<Op>)

  /** The guard `currentRoom && currentUser`: an empty room token is falsy,
      so a connection that joined "" counts as not joined. */
  predicate Joined(c: Session) {
    c.room.Some? && c.room.value != "" && c.user.Some?
  }

  /** The board `getOrCreateBoard` yields for `token`. */
  function BoardOf(reg: Registry, token: string): BoardState {
    if token in reg then reg[token] else EmptyBoard(token)
  }

  /** Every board other than `token` is present in `b` exactly when in `a`,
      and unchanged. */
  ghost predicate OtherBoardsUnchanged(a: Registry, b: Registry, token: string) {
    forall t :: t != token ==> (t in a <==> t in b) && (t in a ==> a[t] == b[t])
  }

  /** Every room outside `except` is present in `b` exactly when in `a`,
      and unchanged. */
  ghost predicate OtherRoomsUnchanged(a: Rooms, b: Rooms, except: set<string>) {
    forall r :: r !in except ==> (r in a <==> r in b) && (r in a ==> a[r] == b[r])
  }

  /** Commits `op` to `token`'s board through `applyOp`, creating the board
      if needed. */
  function Commit(reg: Registry, token: string, op: Op): (res: (Registry, Op))
    ensures token in res.0
    ensures (res.0[token], res.1) == ApplyOp(BoardOf(reg, token), op)
    ensures OtherBoardsUnchanged(reg, res.0, token)
  {
    var (reg1, board) := GetOrCreateBoard(reg, token);
    var (board1, stamped) := ApplyOp(board, op);
    (reg1[token := board1], stamped)
  }

  /** `getRoomUsers`: nothing for an unknown room, otherwise its users, one
      per connection. */
  method GetRoomUsers(rooms: Rooms, token: string) returns (r: seq<User>)
    ensures token !in rooms ==> r == []
    ensures token in rooms ==> Listing.ListsValuesOf(r, rooms[token])
  {
    if token !in rooms {
      return [];
    }
    r := Listing.ValuesOf(rooms[token]);
  }

  /** `board:join`: leaves the previous (truthy) room's roster, takes the
      next palette colour, enters the new room's roster and creates the
      board if needed. */
  function Join(s: Server, c: Session, token: string, displayName: string): (o: Outcome)
    ensures o.session == Session(c.socketId, Some(token), Some(User(displayName, Palette[s.colorIndex % 12])))
    ensures o.server.colorIndex == s.colorIndex + 1
    ensures o.broadcast == None
    ensures o.server.stacks == s.stacks
    ensures token in o.server.boards && o.server.boards[token] == BoardOf(s.boards, token)
    ensures OtherBoardsUnchanged(s.boards, o.server.boards, token)
    ensures token in o.server.rooms
    ensures c.socketId in o.server.rooms[token] && o.server.rooms[token][c.socketId] == o.session.user.value
    ensures forall x :: x != c.socketId ==>
      (x in o.server.rooms[token] <==> token in s.rooms && x in s.rooms[token])
    ensures forall x :: x != c.socketId && x in o.server.rooms[token] ==>
      o.server.rooms[token][x] == s.rooms[token][x]
    ensures c.room.Some? && c.room.value != "" && c.room.value != token ==>
      (c.room.value in o.server.rooms <==> c.room.value in s.rooms) &&
      (c.room.value in s.rooms ==> o.server.rooms[c.room.value] == s.rooms[c.room.value] - {c.socketId})
    ensures OtherRoomsUnchanged(s.rooms, o.server.rooms,
      if c.room.Some? && c.room.value != "" then {c.room.value, token} else {token})
  {
    var left :=
      if c.room.Some? && c.room.value != "" && c.room.value in s.rooms
      then s.rooms[c.room.value := s.rooms[c.room.value] - {c.socketId}]
      else s.rooms;
    var (color, nextIndex) := NextCursorColor(s.colorIndex);
    var user := User(displayName, color);
    var members := if token in left then left[token] else map[];
    var rooms := left[token := members[c.socketId := user]];
    var (boards, _) := GetOrCreateBoard(s.boards, token);
    Outcome(Server(boards, s.stacks, rooms, nextIndex), Session(c.socketId, Some(token), Some(user)), None)
  }

  /** `board:operation`: applies the op through `applyOp`, pushes the
      stamped op onto the sender's undo stack and broadcasts it. Nothing
      happens for a connection that has not joined. */
  function Operation(s: Server, c: Session, op: Op): (o: Outcome)
    ensures !Joined(c) ==> o == Outcome(s, c, None)
    ensures Joined(c) ==>
      var room := c.room.value;
      && o.broadcast.Some?
      && room in o.server.boards
      && (o.server.boards[room], o.broadcast.value) == ApplyOp(BoardOf(s.boards, room), op)
      && OtherBoardsUnchanged(s.boards, o.server.boards, room)
      && o.server.stacks == PushOp(s.stacks, room, c.user.value.displayName, o.broadcast.value)
      && o.server.rooms == s.rooms && o.server.colorIndex == s.colorIndex && o.session == c
  {
    if !Joined(c) then Outcome(s, c, None)
    else
      var room := c.room.value;
      var (boards, stamped) := Commit(s.boards, room, op);
      var stacks := PushOp(s.stacks, room, c.user.value.displayName, stamped);
      Outcome(s.(boards := boards, stacks := stacks), c, Some(stamped))
  }

  /** `board:undo`: pops the sender's undo stack; when there was an op,
      applies its inverse, stamped with a fresh id and time, as a new op and
      broadcasts it. The inverse is not pushed onto the undo stack. */
  function Undo(s: Server, c: Session, freshId: string, now: int): (o: Outcome)
    ensures !Joined(c) ==> o == Outcome(s, c, None)
    ensures Joined(c) ==>
      var room := c.room.value;
      var (stacks, popped) := PopUndo(s.stacks, room, c.user.value.displayName);
      && o.server.stacks == stacks
      && o.server.rooms == s.rooms && o.server.colorIndex == s.colorIndex && o.session == c
      && (popped.None? ==> o.broadcast == None && o.server.boards == s.boards)
      && (popped.Some? ==>
            && o.broadcast.Some?
            && room in o.server.boards
            && (o.server.boards[room], o.broadcast.value) ==
                 ApplyOp(BoardOf(s.boards, room), Stamp(Invert(popped.value), freshId, 0, now))
            && OtherBoardsUnchanged(s.boards, o.server.boards, room))
  {
    if !Joined(c) then Outcome(s, c, None)
    else
      var room := c.room.value;
      var (stacks, popped) := PopUndo(s.stacks, room, c.user.value.displayName);
      match popped
      case None => Outcome(s.(stacks := stacks), c, None)
      case Some(last) =>
        var (boards, stamped) := Commit(s.boards, room, Stamp(Invert(last), freshId, 0, now));
        Outcome(s.(boards := boards, stacks := stacks), c, Some(stamped))
  }

  /** `board:redo`: pops the sender's redo stack; when there was an op,
      re-applies it with a fresh id and time (and so a fresh sequence number
      and, for an add, a fresh z-order) and broadcasts it. */
  function Redo(s: Server, c: Session, freshId: string, now: int): (o: Outcome)
    ensures !Joined(c) ==> o == Outcome(s, c, None)
    ensures Joined(c) ==>
      var room := c.room.value;
      var (stacks, popped) := PopRedo(s.stacks, room, c.user.value.displayName);
      && o.server.stacks == stacks
      && o.server.rooms == s.rooms && o.server.colorIndex == s.colorIndex && o.session == c
      && (popped.None? ==> o.broadcast == None && o.server.boards == s.boards)
      && (popped.Some? ==>
            && o.broadcast.Some?
            && room in o.server.boards
            && (o.server.boards[room], o.broadcast.value) ==
                 ApplyOp(BoardOf(s.boards, room), popped.value.(id := freshId, seqNum := 0, timestamp := now))
            && OtherBoardsUnchanged(s.boards, o.server.boards, room))
  {
    if !Joined(c) then Outcome(s, c, None)
    else
      var room := c.room.value;
      var (stacks, popped) := PopRedo(s.stacks, room, c.user.value.displayName);
      match popped
      case None => Outcome(s.(stacks := stacks), c, None)
      case Some(redoOp) =>
        var (boards, stamped) := Commit(s.boards, room, redoOp.(id := freshId, seqNum := 0, timestamp := now));
        Outcome(s.(boards := boards, stacks := stacks), c, Some(stamped))
  }

  /** Replaces the sender's record in its room's roster, when the room is
      still listed. */
  function UpdateUser(s: Server, c: Session, user: User): (o: Outcome)
    requires Joined(c)
    ensures o.session == c.(user := Some(user))
    ensures o.broadcast == None
    ensures o.server.boards == s.boards && o.server.stacks == s.stacks && o.server.colorIndex == s.colorIndex
    ensures c.room.value in o.server.rooms <==> c.room.value in s.rooms
    ensures c.room.value in s.rooms ==>
      && o.server.rooms[c.room.value].Keys == s.rooms[c.room.value].Keys + {c.socketId}
      && o.server.rooms[c.room.value][c.socketId] == user
      && forall x :: x in s.rooms[c.room.value] && x != c.socketId ==>
           o.server.rooms[c.room.value][x] == s.rooms[c.room.value][x]
    ensures OtherRoomsUnchanged(s.rooms, o.server.rooms, {c.room.value})
  {
    var room := c.room.value;
    var rooms := if room in s.rooms then s.rooms[room := s.rooms[room][c.socketId := user]] else s.rooms;
    Outcome(s.(rooms := rooms), c.(user := Some(user)), None)
  }

  /** `user:update-color`: the sender's colour changes, nothing else. */
  function UpdateColor(s: Server, c: Session, color: string): (o: Outcome)
    ensures !Joined(c) ==> o == Outcome(s, c, None)
    ensures Joined(c) ==>
      o == UpdateUser(s, c, User(c.user.value.displayName, color))
  {
    if !Joined(c) then Outcome(s, c, None)
    else UpdateUser(s, c, c.user.value.(cursorColor := color))
  }

  /** `user:update-name`: the sender's display name changes, nothing else;
      later undo and redo use the new name's stacks. */
  function UpdateName(s: Server, c: Session, newName: string): (o: Outcome)
    ensures !Joined(c) ==> o == Outcome(s, c, None)
    ensures Joined(c) ==>
      o == UpdateUser(s, c, User(newName, c.user.value.cursorColor))
  {
    if !Joined(c) then Outcome(s, c, None)
    else UpdateUser(s, c, c.user.value.(displayName := newName))
  }

  /** `disconnect`: removes the connection from its room's roster and drops
      the room when no one is left. */
  function Disconnect(s: Server, c: Session): (r: Server)
    ensures !Joined(c) ==> r == s
    ensures Joined(c) ==>
      var room := c.room.value;
      && r.boards == s.boards && r.stacks == s.stacks && r.colorIndex == s.colorIndex
      && (room in r.rooms <==> room in s.rooms && s.rooms[room] - {c.socketId} != map[])
      && (room in r.rooms ==> r.rooms[room] == s.rooms[room] - {c.socketId})
      && OtherRoomsUnchanged(s.rooms, r.rooms, {room})
  {
    if !Joined(c) then s
    else
      var room := c.room.value;
      if room !in s.rooms then s
      else
        var users := s.rooms[room] - {c.socketId};
        if |users| == 0 then s.(rooms := s.rooms - {room})
        else s.(rooms := s.rooms[room := users])
  }

  /** A user's own add followed by their undo leaves the board's elements
      as they were, through a remove of that element stamped two sequence
      numbers on. */
  lemma AddThenUndoRestores(s: Server, c: Session, op: Op, freshId: string, now: int)
    requires Joined(c) && op.body.AddElement?
    requires op.body.element.id !in BoardOf(s.boards, c.room.value).elements
    ensures var o1 := Operation(s, c, op);
      var o2 := Undo(o1.server, o1.session, freshId, now);
      && c.room.value in o2.server.boards
      && o2.server.boards[c.room.value].elements == BoardOf(s.boards, c.room.value).elements
      && o2.server.boards[c.room.value].seqNum == BoardOf(s.boards, c.room.value).seqNum + 2
      && o2.broadcast.Some? && o2.broadcast.value.body.RemoveElement?
      && o2.broadcast.value.body.elementId == op.body.element.id
  {
    var room := c.room.value;
    var o1 := Operation(s, c, op);
    var stamped := o1.broadcast.value;
    var b1 := o1.server.boards[room];
    assert PopUndo(o1.server.stacks, room, c.user.value.displayName).1 == Some(stamped);
    UndoAddRestores(BoardOf(s.boards, room).elements, stamped, freshId, b1.seqNum + 1, now);
  }

  /** Undo, redo, undo of an add leaves the same elements as the first undo
      alone: the redo re-adds the element and the second undo removes it. */
  lemma UndoRedoUndoOfAdd(s: Server, c: Session, id1: string, t1: int, id2: string, t2: int, id3: string, t3: int)
    requires Joined(c)
    requires var u := Current(s.stacks, Key(c.room.value, c.user.value.displayName)).undoStack;
      |u| > 0 && u[|u| - 1].body.AddElement?
    ensures var o1 := Undo(s, c, id1, t1);
      var o2 := Redo(o1.server, o1.session, id2, t2);
      var o3 := Undo(o2.server, o2.session, id3, t3);
      && c.room.value in o1.server.boards && c.room.value in o3.server.boards
      && o3.server.boards[c.room.value].elements == o1.server.boards[c.room.value].elements
  {
    var room := c.room.value;
    var name := c.user.value.displayName;
    var u := Current(s.stacks, Key(room, name)).undoStack;
    var x := u[|u| - 1];
    var o1 := Undo(s, c, id1, t1);
    var e1 := o1.server.boards[room].elements;
    assert x.body.element.id !in e1;
    var o2 := Redo(o1.server, o1.session, id2, t2);
    assert PopRedo(o1.server.stacks, room, name).1 == Some(x);
    var e2 := o2.server.boards[room].elements;
    assert e2 == e1[x.body.element.id := e2[x.body.element.id]];
    var o3 := Undo(o2.server, o2.session, id3, t3);
    assert PopUndo(o2.server.stacks, room, name).1 == Some(x);
    assert o3.server.boards[room].elements == e2 - {x.body.element.id};
    InsertThenRemove(e1, x.body.element.id, e2[x.body.element.id]);
  }

  /** An undo that finds a remove `x` on top of the stack re-adds the
      removed element with the board's next z-order. */
  lemma UndoReAddsRemoved(s: Server, c: Session, freshId: string, now: int, x: Op)
    requires Joined(c) && PopUndo(s.stacks, c.room.value, c.user.value.displayName).1 == Some(x)
    requires x.body.RemoveElement?
    ensures var o := Undo(s, c, freshId, now);
      var b := BoardOf(s.boards, c.room.value);
      && c.room.value in o.server.boards
      && o.server.boards[c.room.value].elements ==
           b.elements[x.body.removedElement.id := x.body.removedElement.(zIndex := b.nextZIndex)]
      && o.server.boards[c.room.value].nextZIndex == b.nextZIndex + 1
      && o.server.stacks == PopUndo(s.stacks, c.room.value, c.user.value.displayName).0
  {
  }

  /** A redo that finds a remove `x` on top of the redo stack removes the
      element again and leaves the z-order counter alone. */
  lemma RedoRemovesAgain(s: Server, c: Session, freshId: string, now: int, x: Op)
    requires Joined(c) && PopRedo(s.stacks, c.room.value, c.user.value.displayName).1 == Some(x)
    requires x.body.RemoveElement?
    ensures var o := Redo(s, c, freshId, now);
      var b := BoardOf(s.boards, c.room.value);
      && c.room.value in o.server.boards
      && o.server.boards[c.room.value].elements == b.elements - {x.body.elementId}
      && o.server.boards[c.room.value].nextZIndex == b.nextZIndex
      && o.server.stacks == PopRedo(s.stacks, c.room.value, c.user.value.displayName).0
  {
  }

  /** Undo, redo, undo of a remove does not give back the first undo's
      board: each undo re-adds the removed element through `applyOp`, which
      gives it the board's next z-order, so the second undo puts it one
      z-order higher than the first did. */
  lemma UndoRedoUndoOfRemoveMovesZ(s: Server, c: Session, id1: string, t1: int, id2: string, t2: int, id3: string, t3: int)
    requires Joined(c)
    requires var u := Current(s.stacks, Key(c.room.value, c.user.value.displayName)).undoStack;
      && |u| > 0 && u[|u| - 1].body.RemoveElement?
      && u[|u| - 1].body.elementId == u[|u| - 1].body.removedElement.id
    ensures var u := Current(s.stacks, Key(c.room.value, c.user.value.displayName)).undoStack;
      var e := u[|u| - 1].body.removedElement;
      var n := BoardOf(s.boards, c.room.value).nextZIndex;
      var o1 := Undo(s, c, id1, t1);
      var o2 := Redo(o1.server, o1.session, id2, t2);
      var o3 := Undo(o2.server, o2.session, id3, t3);
      && c.room.value in o1.server.boards && c.room.value in o3.server.boards
      && BoardOf(o1.server.boards, c.room.value).elements == BoardOf(s.boards, c.room.value).elements[e.id := e.(zIndex := n)]
      && BoardOf(o3.server.boards, c.room.value).elements == BoardOf(o1.server.boards, c.room.value).elements[e.id := e.(zIndex := n + 1)]
      && BoardOf(o3.server.boards, c.room.value).elements != BoardOf(o1.server.boards, c.room.value).elements
  {
    var room := c.room.value;
    var name := c.user.value.displayName;
    var u := Current(s.stacks, Key(room, name)).undoStack;
    var x := u[|u| - 1];
    var e := x.body.removedElement;
    var n := BoardOf(s.boards, room).nextZIndex;
    var o1 := Undo(s, c, id1, t1);
    var o2 := Redo(o1.server, o1.session, id2, t2);
    var o3 := Undo(o2.server, o2.session, id3, t3);
    assert room in o1.server.boards && o1.server.boards[room].nextZIndex == n + 1
      && o1.server.boards[room].elements == BoardOf(s.boards, room).elements[e.id := e.(zIndex := n)]
      && PopRedo(o1.server.stacks, room, name).1 == Some(x) by {
      assert PopUndo(s.stacks, room, name).1 == Some(x);
      UndoReAddsRemoved(s, c, id1, t1, x);
      RedoAfterUndo(s.stacks, room, name);
    }
    var e1 := o1.server.boards[room].elements;
    assert room in o2.server.boards && o2.server.boards[room].nextZIndex == n + 1
      && o2.server.boards[room].elements == e1 - {e.id}
      && PopUndo(o2.server.stacks, room, name).1 == Some(x) by {
      RedoRemovesAgain(o1.server, o1.session, id2, t2, x);
      UndoAfterRedo(o1.server.stacks, room, name);
    }
    assert room in o3.server.boards && o3.server.boards[room].elements == (e1 - {e.id})[e.id := e.(zIndex := n + 1)] by {
      UndoReAddsRemoved(o2.server, o2.session, id3, t3, x);
    }
    ReplaceAfterRemove(e1, e.id, e.(zIndex := n + 1));
  }

  /** Removing a present key and storing a different value under it is
      overwriting the old value, and changes the map. */
  lemma ReplaceAfterRemove(m: Elements, k: string, v: Element)
    requires k in m && m[k] != v
    ensures (m - {k})[k := v] == m[k := v]
    ensures m[k := v] != m
  {
    assert m[k := v][k] != m[k];
  }

  /** An undo that finds an update `x` on top of the stack merges the
      update's previous values into the element, when it is present. */
  lemma UndoRevertsUpdate(s: Server, c: Session, freshId: string, now: int, x: Op)
    requires Joined(c) && PopUndo(s.stacks, c.room.value, c.user.value.displayName).1 == Some(x)
    requires x.body.UpdateElement?
    ensures var o := Undo(s, c, freshId, now);
      var m := BoardOf(s.boards, c.room.value).elements;
      var id := x.body.elementId;
      && c.room.value in o.server.boards
      && o.server.boards[c.room.value].elements ==
           (if id in m then m[id := Merge(m[id], x.body.previousState)] else m)
      && o.server.stacks == PopUndo(s.stacks, c.room.value, c.user.value.displayName).0
  {
  }

  /** A redo that finds an update `x` on top of the redo stack merges the
      update's changes into the element again, when it is present. */
  lemma RedoReappliesUpdate(s: Server, c: Session, freshId: string, now: int, x: Op)
    requires Joined(c) && PopRedo(s.stacks, c.room.value, c.user.value.displayName).1 == Some(x)
    requires x.body.UpdateElement?
    ensures var o := Redo(s, c, freshId, now);
      var m := BoardOf(s.boards, c.room.value).elements;
      var id := x.body.elementId;
      && c.room.value in o.server.boards
      && o.server.boards[c.room.value].elements ==
           (if id in m then m[id := Merge(m[id], x.body.changes)] else m)
      && o.server.stacks == PopRedo(s.stacks, c.room.value, c.user.value.displayName).0
  {
  }

  /** Undo, redo, undo of an update leaves the elements the first undo left,
      when the update's previous state names every field its changes name:
      the second undo's previous values overwrite whatever the redo wrote. */
  lemma UndoRedoUndoOfUpdate(s: Server, c: Session, id1: string, t1: int, id2: string, t2: int, id3: string, t3: int)
    requires Joined(c)
    requires var u := Current(s.stacks, Key(c.room.value, c.user.value.displayName)).undoStack;
      && |u| > 0 && u[|u| - 1].body.UpdateElement?
      && Covers(u[|u| - 1].body.previousState, u[|u| - 1].body.changes)
    ensures var o1 := Undo(s, c, id1, t1);
      var o2 := Redo(o1.server, o1.session, id2, t2);
      var o3 := Undo(o2.server, o2.session, id3, t3);
      && c.room.value in o1.server.boards && c.room.value in o3.server.boards
      && BoardOf(o3.server.boards, c.room.value).elements == BoardOf(o1.server.boards, c.room.value).elements
  {
    var room := c.room.value;
    var name := c.user.value.displayName;
    var u := Current(s.stacks, Key(room, name)).undoStack;
    var x := u[|u| - 1];
    var id, ch, p := x.body.elementId, x.body.changes, x.body.previousState;
    var m := BoardOf(s.boards, room).elements;
    var o1 := Undo(s, c, id1, t1);
    var o2 := Redo(o1.server, o1.session, id2, t2);
    var o3 := Undo(o2.server, o2.session, id3, t3);
    var e1 := if id in m then m[id := Merge(m[id], p)] else m;
    assert room in o1.server.boards && o1.server.boards[room].elements == e1
      && PopRedo(o1.server.stacks, room, name).1 == Some(x) by {
      assert PopUndo(s.stacks, room, name).1 == Some(x);
      UndoRevertsUpdate(s, c, id1, t1, x);
      RedoAfterUndo(s.stacks, room, name);
    }
    var e2 := if id in e1 then e1[id := Merge(e1[id], ch)] else e1;
    assert room in o2.server.boards && o2.server.boards[room].elements == e2
      && PopUndo(o2.server.stacks, room, name).1 == Some(x) by {
      RedoReappliesUpdate(o1.server, o1.session, id2, t2, x);
      UndoAfterRedo(o1.server.stacks, room, name);
    }
    assert room in o3.server.boards
      && o3.server.boards[room].elements == (if id in e2 then e2[id := Merge(e2[id], p)] else e2) by {
      UndoRevertsUpdate(o2.server, o2.session, id3, t3, x);
    }
    MergeBackAbsorbs(m, id, p, ch);
  }

  /** On a map, merging `p`, then `ch`, then `p` into the element under `id`
      (each only when it is present) is merging `p` once. */
  lemma MergeBackAbsorbs(m: Elements, id: string, p: Patch, ch: Patch)
    requires Covers(p, ch)
    ensures var e1 := if id in m then m[id := Merge(m[id], p)] else m;
      var e2 := if id in e1 then e1[id := Merge(e1[id], ch)] else e1;
      (if id in e2 then e2[id := Merge(e2[id], p)] else e2) == e1
  {
    if id in m {
      MergeAbsorb(m[id], p, ch);
    }
  }

  /** An undo that finds an add `x` on top of the stack removes `x`'s
      element through a newly stamped remove. */
  lemma UndoRemovesAdd(s: Server, c: Session, freshId: string, now: int, x: Op)
    requires Joined(c) && PopUndo(s.stacks, c.room.value, c.user.value.displayName).1 == Some(x)
    requires x.body.AddElement?
    ensures var o := Undo(s, c, freshId, now);
      && c.room.value in o.server.boards
      && o.server.boards[c.room.value].elements == BoardOf(s.boards, c.room.value).elements - {x.body.element.id}
      && o.broadcast.Some? && o.broadcast.value.body == RemoveElement(x.body.element.id, x.body.element)
      && o.broadcast.value.seqNum == BoardOf(s.boards, c.room.value).seqNum + 1
  {
  }

  /** What a committed operation does to the board and the sender's stack. */
  lemma OperationEffect(s: Server, c: Session, op: Op)
    requires Joined(c)
    ensures var o := Operation(s, c, op);
      && c.room.value in o.server.boards
      && o.broadcast.Some?
      && o.server.boards[c.room.value].elements == Apply(BoardOf(s.boards, c.room.value).elements, o.broadcast.value)
      && o.broadcast.value.seqNum == BoardOf(s.boards, c.room.value).seqNum + 1
      && PopUndo(o.server.stacks, c.room.value, c.user.value.displayName).1 == o.broadcast
      && OthersUnchanged(s.stacks, o.server.stacks, Key(c.room.value, c.user.value.displayName))
  {
  }

  /** Two users on one board: A adds, B adds, A undoes. A's undo removes
      A's element only, so the board holds what it held plus B's element. */
  lemma InterleavedUndo(s: Server, a: Session, b: Session, opA: Op, opB: Op, freshId: string, now: int)
    requires Joined(a) && Joined(b) && a.room == b.room
    requires a.user.value.displayName != b.user.value.displayName
    requires opA.body.AddElement? && opB.body.AddElement?
    requires opA.body.element.id != opB.body.element.id
    requires opA.body.element.id !in BoardOf(s.boards, a.room.value).elements
    ensures var o1 := Operation(s, a, opA);
      var o2 := Operation(o1.server, b, opB);
      var o3 := Undo(o2.server, a, freshId, now);
      && o3.broadcast.Some? && o3.broadcast.value.body.RemoveElement?
      && o3.broadcast.value.body.elementId == opA.body.element.id
      && o3.broadcast.value.seqNum == BoardOf(s.boards, a.room.value).seqNum + 3
      && a.room.value in o3.server.boards
      && o3.server.boards[a.room.value].elements == Apply(BoardOf(s.boards, a.room.value).elements, o2.broadcast.value)
  {
    var room := a.room.value;
    var nameA, nameB := a.user.value.displayName, b.user.value.displayName;
    OwnersKeysDiffer(room, nameA, nameB);
    var m0 := BoardOf(s.boards, room).elements;

    var o1 := Operation(s, a, opA);
    OperationEffect(s, a, opA);
    var stampedA := o1.broadcast.value;
    var e := stampedA.body.element;
    assert o1.server.boards[room].elements == m0[e.id := e];

    var o2 := Operation(o1.server, b, opB);
    OperationEffect(o1.server, b, opB);
    var stampedB := o2.broadcast.value;
    var eB := stampedB.body.element;
    assert Current(o2.server.stacks, Key(room, nameA)) == Current(o1.server.stacks, Key(room, nameA));
    assert PopUndo(o2.server.stacks, room, nameA).1 == Some(stampedA);
    assert BoardOf(o2.server.boards, room).elements == m0[e.id := e][eB.id := eB];

    UndoRemovesAdd(o2.server, a, freshId, now, stampedA);
    RemoveAfterInsert(m0, e.id, e, eB.id, eB);
  }

  /** Removing a key just inserted into a map without it gives the map back. */
  lemma InsertThenRemove(m: Elements, k: string, v: Element)
    requires k !in m
    ensures m[k := v] - {k} == m
  {
  }

  lemma RemoveAfterInsert(m: Elements, k1: string, v1: Element, k2: string, v2: Element)
    requires k1 != k2 && k1 !in m
    ensures m[k1 := v1][k2 := v2] - {k1} == m[k2 := v2]
  {
  }

  /** A connection that was in no room joins `token`: the roster of
      `token` gains exactly that connection. */
  lemma JoinAddsMember(s: Server, c: Session, token: string, name: string)
    requires c.room == None
    ensures var o := Join(s, c, token, name);
      token in o.server.rooms &&
      o.server.rooms[token].Keys == (if token in s.rooms then s.rooms[token].Keys else {}) + {c.socketId}
  {
    var o := Join(s, c, token, name);
    forall x | x in o.server.rooms[token]
      ensures x in (if token in s.rooms then s.rooms[token].Keys else {}) + {c.socketId}
    {
    }
  }

  /** Two fresh connections join the same room: the roster lists both,
      with different colours. */
  lemma TwoJoins(s: Server, c1: Session, c2: Session, token: string, n1: string, n2: string)
    requires token !in s.rooms
    requires c1.room == None && c2.room == None && c1.socketId != c2.socketId
    ensures var j1 := Join(s, c1, token, n1);
      var j2 := Join(j1.server, c2, token, n2);
      && j2.server.rooms[token].Keys == {c1.socketId, c2.socketId}
      && j2.session.user.value.cursorColor != j1.session.user.value.cursorColor
  {
    var j1 := Join(s, c1, token, n1);
    JoinAddsMember(s, c1, token, n1);
    JoinAddsMember(j1.server, c2, token, n2);
    SuccessiveColorsDiffer(s.colorIndex);
  }

  /** When the last two members of a room disconnect, the room is dropped. */
  lemma LastTwoLeave(s: Server, c1: Session, c2: Session)
    requires Joined(c1) && Joined(c2) && c2.room == c1.room && c1.socketId != c2.socketId
    requires c1.room.value in s.rooms && s.rooms[c1.room.value].Keys == {c1.socketId, c2.socketId}
    ensures c1.room.value !in Disconnect(Disconnect(s, c1), c2).rooms
  {
    var room := c1.room.value;
    var d1 := Disconnect(s, c1);
    assert c2.socketId in s.rooms[room] - {c1.socketId};
    assert d1.rooms[room].Keys == {c2.socketId};
    assert d1.rooms[room] - {c2.socketId} == map[];
  }
}
