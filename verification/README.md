# collaboard board engine in Dafny

This project models the state logic at the centre of collaboard, a real-time collaborative whiteboard. A board is a map from element id to element. Clients send operations: add, remove and update. The server stamps each operation with the board's next sequence number and applies it. It records the operation on the sender's undo stack and broadcasts it to the room, and every client replays the broadcast operations on its own copy of the board.

The model covers:

- the operation engine: inversion, application, and replay over a base list (`Elements`, `Operations`);
- the server's board registry, with sequence stamping and z-order assignment (`BoardManager`);
- the per-`board:owner` bounded undo and redo stacks (`UndoManager`);
- rebuilding a board from a snapshot and an operation log (`StateReconstructor`);
- the state effects of the socket handlers: join, operation, undo, redo, name and colour updates, and disconnect (`Handlers`);
- the round-robin cursor palette (`CursorColors`);
- the client's board mirror (`BoardStore`);
- the client's recent-colours list (`ToolStore`).

Global mutable state becomes explicit values that each operation takes and returns:

- the registry, the stacks map, the room rosters and the colour counter;
- each connection's `currentRoom` and `currentUser`, which form a `Session`.

Three things the code reaches for are parameters instead: fresh ids from `generateId()`, the time from `Date.now()`, and the operation a client sends.

An element is modelled as its `id`, its `zIndex` and a map from every other field name to a value. A `Partial<BoardElement>` is a `Patch`: an optional id, an optional z-order and a field map. The spread `{ ...existing, ...changes }` is `Merge`, a right-biased union. JavaScript `Map`s have no counterpart with an insertion order, so a listing of a map is stated as "each key exactly once, in some order".

Where the repository's own documentation and tests disagree with the code, the model follows the code:

- `getOrCreateBoard` never loads a snapshot.
- Nothing in the registry ever sets `dirty` or `empty`.
- `reconstructBoard` replays the surviving operations in list order; it does not sort them by sequence number.
- The tests and the snapshot manager import a `removeBoard` that does not exist. `deleteBoard` is the only removal.

Some consequences of the code are recorded as lemmas:

- The undo key is the plain concatenation `token + ":" + owner`. Two different (board, owner) pairs therefore share stacks when a token contains `':'` (`UndoManager.KeysCollide`). For colon-free tokens the key is injective (`UndoManager.KeyInjective`).
- Undoing a remove re-adds the element through `applyOp`, so the element gets a fresh z-order instead of its old one. Undo, redo, undo of a remove therefore leaves the element one z-order higher than the first undo did (`Handlers.UndoRedoUndoOfRemoveMovesZ`), while for an add the three steps end where the first undo ended (`Handlers.UndoRedoUndoOfAdd`), and so do they for an update whose previous state names every field its changes name (`Handlers.UndoRedoUndoOfUpdate`).
- An update whose `changes` carry an `id` different from its target stores the merged element under the old key while the element carries the new id (`Operations.RenamingUpdateBreaksIdKeyed`). A client that joins afterwards keys that element by the new id, so it no longer mirrors the server. Without such updates a board stays keyed by id (`BoardManager.ApplyOpsKeepIdKeyed`), and a joining client rebuilds it exactly (`BoardStore.JoinAfterOps`).
- A `join` leaves the previous room's roster in place even when that roster becomes empty. Only `disconnect` drops an empty room.
- The client's `applyOp` assigns the operation's sequence number, so a late operation moves it backwards (`BoardStore.ApplyOp`).

## Model

| member | source | states |
|---|---|---|
| Elements.Merge | shared/src/utils/operation-helpers.ts:48-53 | the merged element takes id and z-order from the patch when it names them; its fields are the union, with the patch's values winning and every other field kept |
| Elements.MergeAbsorb | shared/src/utils/operation-helpers.ts:48-53 | spreading p, then ch, then p again over an element equals spreading p once, when p names every field ch names |
| Elements.MergeRestores | shared/src/utils/operation-helpers.ts:23-31 | merging changes, then the previous values recorded for exactly those fields, gives back the original element |
| Operations.Invert | shared/src/utils/operation-helpers.ts:4-33 | board and owner are kept; add becomes a remove of that element's id carrying the element; remove becomes an add of the removed element; update keeps the id and swaps changes with previousState |
| Operations.InvertTwice | shared/src/utils/operation-helpers.ts:4-33 | inverting, re-stamping and inverting again gives back the operation's board, owner and body (for a remove, when its removed element carries the removed id) |
| Operations.Apply | shared/src/utils/operation-helpers.ts:35-57 | only the target id can change; an add stores the element under its id; a remove leaves the id absent (a no-op when it was absent); an update leaves a missing id missing and merges the changes into a present one |
| Operations.ApplyKeepsIdKeyed | shared/src/utils/operation-helpers.ts:35-57 | applying an op that does not rename its target keeps every element stored under its own id |
| Operations.ApplyKeepsWellFormed | shared/src/utils/operation-helpers.ts:35-57 | applying an op whose element or changes lack the id and zIndex field keys keeps every stored element's field map free of them |
| Operations.RenamingUpdateBreaksIdKeyed | shared/src/utils/operation-helpers.ts:48-53 | an update whose changes name another id leaves the merged element under the old key with the new id |
| Operations.UndoAddRestores | shared/src/utils/operation-helpers.ts:4-46 | an add of an absent id followed by its re-stamped inverse restores the map |
| Operations.UndoRemoveRestores | shared/src/utils/operation-helpers.ts:4-46 | removing a present element, when the remove carries that element, and then applying the re-stamped inverse restores the map |
| Operations.UndoUpdateRestores | shared/src/utils/operation-helpers.ts:4-57 | an update whose previousState records the touched fields, followed by its re-stamped inverse, restores the map |
| Operations.InsertAllKeys | shared/src/utils/operation-helpers.ts:63-66 | the map built from a base list has exactly the ids in the list as keys |
| Operations.InsertAllLastWins | shared/src/utils/operation-helpers.ts:63-66 | an element of the base list is stored under its id unless a later element has the same id |
| Operations.ReconstructState | shared/src/utils/operation-helpers.ts:59-71 | the result is the base inserted by id and then the operations applied in list order; an empty base with no operations gives the empty map |
| Operations.ApplyAllAppend | shared/src/utils/operation-helpers.ts:67-69 | replaying a then b equals replaying a + b |
| BoardManager.GetOrCreateBoard | server/src/board/board-manager.ts:6-18 | a known token returns its board and leaves the registry alone; an unknown token registers an empty board with seqNum 0 and nextZIndex 0 and keeps every other board |
| BoardManager.ApplyOp | server/src/board/board-manager.ts:20-30 | seqNum rises by exactly one and the stamped op carries it; an add's element gets the old nextZIndex, which then rises by one; other ops leave nextZIndex alone; the elements become the stamped op applied to the old elements |
| BoardManager.ApplyOpsStamps | server/src/board/board-manager.ts:20-30 | successive applyOp calls stamp seqNum + 1, seqNum + 2, ... with no gap; in any mix of ops, the add at position i gets the starting nextZIndex plus the number of adds before it, other ops keep their body, and nextZIndex ends advanced by the number of adds |
| BoardManager.ZOrdersIncrease | server/src/board/board-manager.ts:20-30 | in one series, the z-orders given to adds strictly increase, start at the board's counter and stay below the final counter, so none is handed out twice |
| BoardManager.EmptyBoardIdKeyed | server/src/board/board-manager.ts:9-14 | a fresh board stores every element under its own id |
| BoardManager.ApplyOpKeepsIdKeyed | server/src/board/board-manager.ts:20-30 | applyOp of an op that keeps ids keeps the board id-keyed |
| BoardManager.ApplyOpsKeepIdKeyed | server/src/board/board-manager.ts:20-30 | a series of ops that keep ids keeps the board id-keyed |
| BoardManager.FreshBoardStamps | server/src/board/board-manager.ts:6-30 | on a fresh board, n operations are stamped 1..n and n adds get z-orders 0..n-1 |
| BoardManager.GetBoardElements | server/src/board/board-manager.ts:32-36 | an unknown token gives the empty list; otherwise every element of the board once, in non-decreasing z-order |
| Listing.SortedValues | server/src/board/board-manager.ts:35 | the result is sorted by z-order and lists each value of the map exactly once |
| BoardManager.GetBoard | server/src/board/board-manager.ts:38-40 | a board is returned exactly when the token is registered, and it is the registered one |
| BoardManager.DeleteBoard | server/src/board/board-manager.ts:42-44 | exactly the one token is forgotten and every other board is kept |
| BoardManager.DeleteThenGet | server/src/board/board-manager.ts:38-44 | after deleting a token, getBoard finds nothing for it and the same as before for every other token |
| BoardManager.GetActiveBoards | server/src/board/board-manager.ts:46-48 | every registered token, each exactly once |
| UndoManager.Push | server/src/board/undo-manager.ts:29-32 | the pushed op is on top, and a stack of at most 100 stays at most 100 and keeps the newest 100 entries |
| UndoManager.PushOp | server/src/board/undo-manager.ts:27-35 | the op is on top of the caller's undo stack, which keeps the newest 100 entries; the redo stack is emptied; the 100 bound holds for every key; other keys are untouched |
| UndoManager.PushOpForUndo | server/src/board/undo-manager.ts:37-44 | as pushOp on the undo stack, but the redo stack is left as it was |
| UndoManager.PopUndo | server/src/board/undo-manager.ts:46-56 | an empty undo stack gives none and leaves the key's stacks as they were; otherwise it returns the top, removes it, and pushes it on the bounded redo stack; other keys are untouched |
| UndoManager.PopRedo | server/src/board/undo-manager.ts:58-68 | the mirror image of popUndo |
| UndoManager.PushThenPopUndo | server/src/board/undo-manager.ts:27-56 | a freshly pushed op is the next one popUndo returns |
| UndoManager.PushThenPopRedo | server/src/board/undo-manager.ts:27-68 | after pushOp there is nothing to redo |
| UndoManager.UndoRedoUndo | server/src/board/undo-manager.ts:46-68 | popUndo, popRedo, popUndo return the same op, and the undo stack after the redo is the one before the undo |
| UndoManager.PushOpsUndo | server/src/board/undo-manager.ts:27-35 | a series of pushOp calls acts on the caller's undo stack as the bounded pushes alone, and leaves the redo stack empty |
| UndoManager.PushAllKeepsNewest | server/src/board/undo-manager.ts:3-32 | pushing onto a stack of at most 100 leaves the last 100 entries of old stack + pushed ops |
| UndoManager.PushOpsKeepsNewest | server/src/board/undo-manager.ts:27-35 | after any number of pushOp calls the undo stack is the last 100 entries of the old stack followed by the pushed ops |
| UndoManager.HundredTenPushes | server/src/board/undo-manager.ts:27-35 | 110 pushes onto a fresh key leave exactly the last 100 |
| UndoManager.ClearStacks | server/src/board/undo-manager.ts:70-72 | exactly the one key is forgotten |
| UndoManager.ClearBoardStacks | server/src/board/undo-manager.ts:74-80 | exactly the keys starting with `token:` are forgotten; every kept key keeps its stacks |
| UndoManager.ClearBoardStacksScope | server/src/board/undo-manager.ts:74-80 | every owner's key on the board is forgotten, and for colon-free tokens every other board's key is kept |
| UndoManager.KeyInjective | server/src/board/undo-manager.ts:13-15 | for colon-free tokens, equal keys mean equal (board, owner) pairs |
| UndoManager.OwnersKeysDiffer | server/src/board/undo-manager.ts:13-15 | two owners on one board have different keys |
| UndoManager.RedoAfterUndo | server/src/board/undo-manager.ts:46-68 | a popRedo right after a popUndo returns the op the popUndo returned |
| UndoManager.UndoAfterRedo | server/src/board/undo-manager.ts:46-68 | a popUndo right after a popRedo returns the op the popRedo returned |
| UndoManager.KeysCollide | server/src/board/undo-manager.ts:13-15 | with a ':' in the token, two different pairs share one key |
| StateReconstructor.SurvivorsMembers | server/src/board/state-reconstructor.ts:13 | the replayed ops are exactly the logged ops with a sequence number above the snapshot's |
| StateReconstructor.SurvivorsAppend | server/src/board/state-reconstructor.ts:13 | filtering a concatenation of logs is the concatenation of the filtered logs, so survivors keep their log order |
| StateReconstructor.SurvivorsNone | server/src/board/state-reconstructor.ts:13 | no op survives exactly when every logged op is at or below the snapshot's sequence number |
| StateReconstructor.SurvivorsLast | server/src/board/state-reconstructor.ts:13-21 | the last survivor is the last logged op newer than the snapshot |
| StateReconstructor.NextZIndex | server/src/board/state-reconstructor.ts:16-19 | the result is at least 0, above every element's z-order, and either 0 or one past some element's z-order |
| StateReconstructor.ReconstructBoard | server/src/board/state-reconstructor.ts:4-29 | the token is the argument; the elements are the snapshot's elements (none without one) with the newer ops replayed in list order; nextZIndex is as NextZIndex; seqNum is the last survivor's, or the snapshot's (0 without one) when none survives |
| StateReconstructor.SurvivorsAfterSplit | server/src/board/state-reconstructor.ts:13 | when the log's first j ops are those a snapshot covers, the survivors are the remaining ops |
| StateReconstructor.ReplayAfterSnapshot | server/src/board/state-reconstructor.ts:9-14 | a snapshot of the state after the first j ops plus the replay of the newer ops gives the same elements as replaying the whole log |
| CursorColors.Colors | server/src/utils/colors.ts:18-22 | n successive calls give n colours, call k being the one made with the counter at index + k |
| CursorColors.ColorCycle | server/src/utils/colors.ts:1-22 | every colour comes from the palette, and the colours repeat with period 12 |
| CursorColors.KthColor | server/src/utils/colors.ts:16-22 | call k of a series started at counter index returns palette entry (index + k) mod 12 |
| CursorColors.NextCursorColor | server/src/utils/colors.ts:20 | each call advances the counter by exactly one |
| CursorColors.PaletteDistinct | server/src/utils/colors.ts:1-14 | the palette has 12 pairwise different colours |
| CursorColors.ConsecutiveDistinct | server/src/utils/colors.ts:1-22 | any 12 or fewer consecutive calls return pairwise different colours |
| CursorColors.SuccessiveColorsDiffer | server/src/utils/colors.ts:18-22 | two successive palette colours differ |
| Handlers.GetRoomUsers | server/src/socket/handlers.ts:14-18 | an unknown room gives the empty list; otherwise each connection's user exactly once |
| Handlers.Commit | server/src/socket/handlers.ts:76-77 | the board is created when missing and the op goes through applyOp; other boards are unchanged |
| Handlers.Join | server/src/socket/handlers.ts:28-71 | the connection leaves its previous truthy room's roster and enters the new room's with the next palette colour; the counter advances; the board exists afterwards and is unchanged; stacks and other rooms are untouched |
| Handlers.JoinAddsMember | server/src/socket/handlers.ts:50-54 | a connection that was in no room adds exactly itself to the roster |
| Handlers.TwoJoins | server/src/socket/handlers.ts:28-54 | two fresh connections joining one room are both listed, with different colours |
| Handlers.Operation | server/src/socket/handlers.ts:73-84 | without a room and user nothing happens; otherwise the op goes through applyOp, the stamped op is pushed on the sender's stacks and broadcast, and rooms and session are untouched |
| Handlers.OperationEffect | server/src/socket/handlers.ts:73-84 | the board's elements become the broadcast op applied to them, the op is stamped one past the board's seqNum, it is next for the sender's undo, and other owners' stacks are untouched |
| Handlers.Undo | server/src/socket/handlers.ts:86-103 | without a room and user nothing happens; with nothing to undo only the stacks change; otherwise the popped op's inverse, freshly stamped, goes through applyOp and is broadcast, and nothing is pushed on the undo stack |
| Handlers.UndoRemovesAdd | server/src/socket/handlers.ts:86-103 | undoing one's own add removes exactly that element, through a broadcast remove stamped one past the board's seqNum |
| Handlers.AddThenUndoRestores | server/src/socket/handlers.ts:73-103 | an add followed by its undo restores the elements, two sequence numbers on, through a broadcast remove of the element |
| Handlers.InterleavedUndo | server/src/socket/handlers.ts:73-103 | A adds, B adds, A undoes: A's element goes and B's stays |
| Handlers.Redo | server/src/socket/handlers.ts:105-121 | without a room and user nothing happens; with nothing to redo only the stacks change; otherwise the popped op, with a fresh id and time, goes through applyOp (new seqNum, and a new z-order for an add) and is broadcast |
| Handlers.UndoRedoUndoOfAdd | server/src/socket/handlers.ts:86-121 | undo, redo, undo of an add leaves the elements the first undo left |
| Handlers.UndoReAddsRemoved | server/src/socket/handlers.ts:86-103 | undoing a remove re-adds the removed element with the board's next z-order, which then rises by one |
| Handlers.RedoRemovesAgain | server/src/socket/handlers.ts:105-121 | redoing a remove removes the element again and leaves the z-order counter alone |
| Handlers.UndoRedoUndoOfRemoveMovesZ | server/src/socket/handlers.ts:86-121 | undo, redo, undo of a remove leaves the element one z-order higher than the first undo did, so the board differs from the first undo's |
| Handlers.UndoRevertsUpdate | server/src/socket/handlers.ts:86-103 | undoing an update merges its previous values into the element when it is present, and leaves the elements alone otherwise |
| Handlers.RedoReappliesUpdate | server/src/socket/handlers.ts:105-121 | redoing an update merges its changes into the element again when it is present |
| Handlers.UndoRedoUndoOfUpdate | server/src/socket/handlers.ts:86-121 | undo, redo, undo of an update whose previous state names every field its changes name leaves the elements the first undo left |
| Handlers.UpdateUser | server/src/socket/handlers.ts:141-159 | only the sender's roster record is replaced, and only when its room is listed; boards, stacks and the counter are untouched |
| Handlers.UpdateColor | server/src/socket/handlers.ts:141-149 | without a room and user nothing happens; otherwise the sender's record gets the new colour and keeps its name |
| Handlers.UpdateName | server/src/socket/handlers.ts:151-159 | without a room and user nothing happens; otherwise the sender's record gets the new name and keeps its colour |
| Handlers.Disconnect | server/src/socket/handlers.ts:161-175 | the connection leaves its room's roster; the room is dropped exactly when no one is left; everything else is untouched |
| Handlers.LastTwoLeave | server/src/socket/handlers.ts:161-175 | when the last two members disconnect, the room is dropped |
| BoardStore.SetInitialState | client/src/store/board-store.ts:17-23 | the keys are exactly the ids in the list, an element is stored under its id unless a later one has the same id, and seqNum is the given one |
| BoardStore.InitialStateMirrors | client/src/store/board-store.ts:17-23 | rebuilding from any listing of an id-keyed board gives back that board |
| BoardStore.ApplyOp | client/src/store/board-store.ts:25-29 | the elements become the op applied to the old elements, with the same Apply as the server; seqNum becomes the op's, even when lower; only the op's target element can change |
| BoardStore.MirrorTracksServer | client/src/store/board-store.ts:25-29 | a client in step with the server that applies every stamped broadcast op keeps the server's elements and, after at least one op, ends on its seqNum |
| BoardStore.FreshClientTracksFreshBoard | client/src/store/board-store.ts:13-29 | a client starting from the initial store on a fresh board, applying each broadcast op, holds the server's elements and n as seqNum after n ops |
| BoardStore.JoinAfterOps | client/src/store/board-store.ts:17-23 | a client joining a board that has seen only ops that keep ids rebuilds exactly the server's elements |
| BoardStore.GetElementsSorted | client/src/store/board-store.ts:31-33 | every stored element once, in non-decreasing z-order |
| ToolStore.SetActiveTool | client/src/store/tool-store.ts:15 | only the active tool changes |
| ToolStore.Without | client/src/store/tool-store.ts:18 | the kept colours are exactly the old ones other than c, each as often as before (the multiset of the list with c's count set to 0) |
| ToolStore.WithoutAppend | client/src/store/tool-store.ts:18 | filtering a concatenation is the concatenation of the filtered parts, so the entries kept stay in their relative order |
| ToolStore.WithoutNoRepeats | client/src/store/tool-store.ts:18 | dropping a colour from a list without repeats leaves one without repeats |
| ToolStore.AddRecentColor | client/src/store/tool-store.ts:16-19 | c comes first and nowhere else; the rest is the old list without c, cut so the list has at most 8 entries; tool and font are untouched |
| ToolStore.AddKeepsNoRepeats | client/src/store/tool-store.ts:16-19 | a list without repeats stays without repeats |
| ToolStore.AddKeepsOnlyKnown | client/src/store/tool-store.ts:16-19 | every listed colour is the new one or was listed before |
| ToolStore.AddFrontIsIdempotent | client/src/store/tool-store.ts:16-19 | adding the colour already in front changes nothing |
| ToolStore.ReachableRecentColors | client/src/store/tool-store.ts:11-19 | from the initial store, any series of picks leaves a list without repeats, of at most 8 picked colours, led by the last pick, with tool and font untouched |

## Left out

- Socket emits other than the one op broadcast are not modelled: `board:state`, `board:user-list`, `board:user-joined`, `board:user-left`, the cursor relay and the drawing relay. Socket room membership (`socket.join` and `socket.leave`) is not modelled either.
- Persistence is not part of this model: snapshot files, SQLite, JSON and the timers that save boards. A snapshot is a plain value passed to `ReconstructBoard`.
- Id generation (`nanoid`) and `Date.now()` are not modelled. Fresh ids and times are parameters.
- Numbers are unbounded integers. JavaScript floating point, including precision loss past 2^53, is not modelled.
- The `dirty` and `empty` flags of a board are not modelled, because the registry never assigns them.
- The UI is not modelled: React components, renderers, the viewport store and the other client stores.
- Listing.SortedValues: the order among elements with equal z-order is left open, because JavaScript's stable sort keeps `Map` insertion order and Dafny maps have none.
- BoardManager.GetBoardElements: the order among equal z-orders is left open, for the same reason.
- BoardStore.GetElementsSorted: the order among equal z-orders is left open, for the same reason.
- BoardManager.GetActiveBoards: the order of the tokens is left open, because Dafny maps have no insertion order.
- Handlers.GetRoomUsers: the order of the users is left open, because Dafny maps have no insertion order.
- Handlers.UpdateColor: the source mutates the `currentUser` object, which the roster shares. The model replaces the roster record by a new value, and the two are equivalent for the roster state.
- Handlers.UpdateName: the source mutates the `currentUser` object, which the roster shares. The model replaces the roster record by a new value, and the two are equivalent for the roster state.
- Operations.Apply: elements are compared as values. JavaScript object identity and aliasing between the board map and the broadcast op are not modelled.
- Operations are assumed well formed, as the shared types declare them. The source accepts whatever the socket delivers: an op whose `type` is none of the three still takes a sequence number in `applyOp`, is ignored by `applyOperation`, and is still pushed on the undo stack and broadcast; undoing it spreads the `undefined` that `invertOperation` returns into an op with no type, which takes yet another sequence number. A `Partial` field whose value is `undefined` has no `Value` either. None of this is modelled.
- The `id` and `zIndex` keys are assumed absent from the field map (`Elements.WellFormed`), and `Operations.ApplyKeepsWellFormed` shows applying an op keeps that so when the op's element and changes respect it. The source's spread could write those keys through an update's `changes`; the model carries them in the patch's own `id` and `zIndex` instead.
- `getOrCreate` in the undo manager has no member of its own. It is `UndoManager.Current`, and the pops register the key as it does.
