# Study-room server: the room directory and its socket handlers

This project models the core of a study-room server: one Node.js process
(`server.js`) that keeps every study room in an in-memory `Map` and changes
it from socket.io event handlers. A room has an id, a name, a description,
a creation time and an ordered list of member nicknames. Each connection
carries a binding, `socket.roomId` and `socket.nickname`.

The handlers are modelled as methods of the class `Server.Directory`:

- `getRooms` and `searchRooms` send the requester room summaries;
- `createRoom` validates the name and stores a new room;
- `joinRoom` checks three error cases in order, appends the nickname and binds the session;
- `leaveRoom` and `disconnect` remove the member and delete the room once it is empty.

Every method returns the messages it emits, in emission order. Each message
is tagged with its addressee: the requester (`socket.emit`), one room's
subscribers (`io.to(roomId).emit`) or everyone (`io.emit`). Handlers run
one at a time to completion, so they are plain sequential methods.

Layout, one module per file:

- `wrappers.dfy`: `Option` and `Result`.
- `strings.dfy`: JavaScript `trim`, `toLowerCase` and `includes`.
- `sequences.dfy`: array `indexOf`, `splice(i, 1)` and "no repeats".
- `ordered_maps.dfy`: a JavaScript `Map`. Iteration order is insertion order, so the order of `roomsList` is modelled.
- `rooms.dfy`: rooms, summaries, the directory invariant, the listing and the search.
- `protocol.dfy`: request fields, messages, addresses and error texts.
- `transitions.dfy`: each handler's state change as a function, with the lemmas about it.
- `server.dfy`: the `Session` and `Directory` classes and the handlers.
- `scenarios.dfy`: client runs checked against the contracts alone. They show the stale-binding behaviour below.

The model follows what `server.js` does, including behaviour a reader
might not expect of a chat-room server:

- `leaveRoom` and `disconnect` never clear the session's binding (`server.js:159-241` assigns neither field). The sessions are outside their `modifies` clauses. As a consequence, a connection that left still holds its binding. If another connection later joins that room under the same nickname, the first connection's disconnect removes the second one's membership (`Scenarios.StaleBinding`, `Scenarios.StaleDisconnect`, `Scenarios.StaleLeave`).
- `joinRoom` does not look at an existing binding. It overwrites it (`server.js:127-128`), and the old room keeps the nickname (`Scenarios.Rebind`).
- `socket.join` is never undone by a leave. The session's `channels` only grow.
- Empty rooms do persist. A created room has no members until someone joins, and it is deleted only by a leave or disconnect that empties it. When a room is emptied, the first `roomsList` broadcast still lists it, with a count of 0.
- There is no member-status map, no set-status handler and no task-completed handler. `roomJoined` carries only the room and the member list.
- The code does not check that a new room's id is unused. `rooms.set` replaces an entry under an existing id in place, and the model does the same; the fresh-id case is stated separately.

## Model

| member | source | states |
|---|---|---|
| Strings.TrimStart | server.js:53 | the result is the suffix of the input left after its leading white space; it is empty or starts with a non-space, and everything cut off is white space |
| Strings.TrimEnd | server.js:53 | the result is the prefix of the input left after its trailing white space; it is empty or ends with a non-space, and everything cut off is white space |
| Strings.Trim | server.js:53-62 | `trim()` returns a string no longer than the input that neither starts nor ends with white space |
| Strings.IsSpace | server.js:53 | the characters `trim()` strips: ECMAScript's white space (tab, vertical tab, form feed, no-break space, byte-order mark and every space separator) and its line terminators (line feed, carriage return, line and paragraph separators); `TrimStart`, `TrimEnd` and `TrimBounds` state what is cut in its terms |
| Strings.TrimBounds | server.js:53-62 | `trim()` returns the slice `s[a..b]` of its input, with only white space before `a` and from `b` on |
| Strings.TrimShape | server.js:53-56 | the trimmed string is the input with a white-space prefix and a white-space suffix cut off, and it is empty exactly when the input is all white space, which is when `createRoom` refuses a given name |
| Strings.TrimIdempotent | server.js:61-62 | a trimmed string is its own trim, so trimming twice is trimming once |
| Strings.LowerChar | server.js:85-89 | lower-casing one character leaves no ASCII capital, and it changes only an ASCII capital, into the letter 32 code points above |
| Strings.ToLower | server.js:85-89 | `toLowerCase()` keeps the length and lowers each character on its own |
| Strings.ToLowerIdempotent | server.js:85-89 | lower-casing a lower-cased string changes nothing |
| Strings.Includes | server.js:88-89 | `s.includes(t)` holds when `t` occurs in `s` as a contiguous substring at some index; `IncludesEmpty` and the search lemmas rest on it |
| Strings.IncludesEmpty | server.js:85-89 | every string includes the empty string |
| Sequences.IndexOf | server.js:163-164 | `indexOf` is -1 exactly when the value is absent; otherwise it is the index of the value's first occurrence |
| Sequences.RemoveAt | server.js:166 | `splice(i, 1)` drops exactly the element at `i`: earlier elements keep their index and later ones shift down by one |
| Sequences.RemoveAtMultiset | server.js:166 | `splice(i, 1)` takes exactly one copy of the element at `i` out of the list's multiset |
| Sequences.RemoveAtWithoutDuplicates | server.js:163-166 | in a list without repeats, removing the element at `i` removes that value altogether, keeps every other value, and leaves no repeats |
| Sequences.AppendFresh | server.js:117-126 | pushing a value not yet present keeps the list free of repeats |
| OrderedMaps.OrderedMap.Empty | server.js:20 | `new Map()` has no keys and no entries |
| OrderedMaps.OrderedMap.Get | server.js:110 | `get` finds an entry exactly when the key is stored, and then it is the stored entry; `undefined` is `None` |
| OrderedMaps.OrderedMap.Set | server.js:67 | `set` stores the entry; a new key goes to the end of the order, an existing key keeps its place; the map stays valid |
| OrderedMaps.OrderedMap.Delete | server.js:186 | `delete` removes the key and its entry and keeps the other keys in their order; deleting an absent key changes nothing |
| OrderedMaps.OrderedMap.Values | server.js:40 | `Array.from(values())` lists the entries in key order |
| OrderedMaps.SetThenDelete | server.js:166-186 | replacing an entry and then deleting its key is the same as deleting the key |
| OrderedMaps.ValuesAfterSet | server.js:67 | after `set`, a new entry is appended to the values, and a replaced entry changes in place |
| OrderedMaps.ValuesAfterDelete | server.js:186-193 | after `delete`, the deleted entry drops out of the values and the rest keep their order |
| Rooms.Summary | server.js:40-46 | a room's summary keeps its id, name, description and creation time and replaces its member list by the list's length, `memberCount` |
| Rooms.Summaries | server.js:40-46 | the projection has one summary per room, each that room's summary, in order |
| Rooms.Listing | server.js:40-46 | the `roomsList` payload, built the same way at `server.js:70-76`, `146-152`, `173-179` and `187-193`, has one entry per stored key, and entry `i` is the summary of the room under the `i`-th key in insertion order |
| Rooms.ListingOnePerRoom | server.js:40-46 | the `roomsList` payload has exactly one entry per stored room: its ids are the keys in iteration order, without repeats, and each entry's `memberCount` is that room's number of members |
| Rooms.ListingAfterInsert | server.js:67-76 | after creating a room under a new id, the listing is the old listing with the new room's summary appended |
| Rooms.ListingAfterReplace | server.js:126-152 | after a room changes in place, the listing differs only in that room's entry |
| Rooms.ListingAfterDelete | server.js:186-193 | after a room is deleted, the listing is the old listing without that room's entry |
| Rooms.Matches | server.js:87-89 | the filter condition: the lower-cased name includes the lower-cased term, or the lower-cased description does; `Filter` and `FilterIgnoresTermCase` state what it selects |
| Rooms.Filter | server.js:86-90 | the filter keeps exactly the rooms whose lower-cased name or description includes the lower-cased term: the result is a subsequence of the input, in its order, and each matching room keeps its number of copies while every other room has none |
| Rooms.Search | server.js:84-97 | the `searchRooms` payload has at most one entry per stored room, and every entry matches the term; `SearchIsFilteredListing` says it is exactly the matching part of the listing |
| Rooms.FilterSummaries | server.js:84-98 | a reference definition of the search: the summaries of a listing whose name or description matches the term, as a subsequence of the listing that keeps every matching entry's number of copies |
| Rooms.FilterCommutes | server.js:86-97 | filtering rooms and then projecting them equals projecting them and then filtering the summaries |
| Rooms.SearchIsFilteredListing | server.js:84-98 | `searchRooms` returns exactly the part of the full listing that matches case-insensitively, in listing order; a summary is in the result iff it is in the listing and matches |
| Rooms.SearchEmptyTerm | server.js:85-97 | searching for the empty term returns the full listing |
| Rooms.FilterIgnoresTermCase | server.js:85-89 | filtering on a term and on its lower-cased form keeps the same rooms |
| Rooms.SearchIgnoresTermCase | server.js:85-98 | `searchRooms` answers a term and its lower-cased form with the same listing, so the term's case never matters |
| Protocol.Falsy | server.js:53 | JavaScript's `!field` for a string field: it holds of an absent field and of the empty string; `CreateRejected` and `JoinRoom` use it |
| Protocol.Info | server.js:131-137 | the `room` part of `roomJoined` keeps the room's id, name, description and creation time, and leaves out its members |
| Protocol.JoinErrorText | server.js:105-120 | each join error is reported with a non-empty text that differs from the text of the create error |
| Protocol.JoinErrorTextsDistinct | server.js:105-120 | the three join errors are reported with three different texts, so a client can tell them apart |
| Transitions.Bound | server.js:160 | `socket.roomId && socket.nickname`: the connection has a binding, and both its parts are non-empty; `DepartureWithoutMember` states that an unbound leave does nothing |
| Transitions.CreateRejected | server.js:53 | `!name` or `name.trim() === ''`: the name is absent, empty or all white space; `CreateRoom` refuses exactly these names |
| Transitions.NewRoom | server.js:58-65 | the created room has the given id and creation time and no members; its name is non-empty and trimmed, and its description is trimmed |
| Transitions.CreateKeepsWellFormed | server.js:58-76 | creating a room keeps the directory invariant; under a fresh id the room is appended to the key order and the listing gains its summary, with member count 0, at the end |
| Transitions.Joined | server.js:126 | the directory after `members.push` on one room is again a valid Map |
| Transitions.JoinKeepsWellFormed | server.js:116-126 | a join that passed the checks appends the nickname at the end of that room's members, keeps every other room and the key order, and keeps every member list free of repeats |
| Transitions.JoinListing | server.js:145-153 | after a join, the broadcast listing differs from the old one only in that room's entry, whose count is one higher |
| Transitions.Present | server.js:160-164 | a leave finds its member: the connection is bound, its room is stored, and its nickname is a member; `DepartureWithoutMember` states that otherwise nothing happens |
| Transitions.Remaining | server.js:163-166 | `members.splice(members.indexOf(nickname), 1)` leaves one member fewer; `DepartureRemovesMember` says which one |
| Transitions.Departed | server.js:159-199 | the directory after a leave or disconnect is again a valid Map; the handlers are specified by this function |
| Transitions.DepartureEvents | server.js:168-193 | a leave emits nothing exactly when its member is not present; otherwise three messages, or four when the room was emptied, of which the first two are `memberLeft` and `membersUpdate` to that room |
| Transitions.DepartureWithoutMember | server.js:160-164 | a leave is a no-op in three cases: the session is unbound, its room is gone, or its nickname is not a member; nothing changes and nothing is emitted |
| Transitions.DepartureRemovesMember | server.js:163-166 | a leave removes the nickname at its index and keeps the other members in their order; afterwards the nickname is no longer a member and the list has no repeats |
| Transitions.DepartureKeepsWellFormed | server.js:159-199 | a leave or disconnect keeps the directory invariant |
| Transitions.DepartureCollectsEmptyRoom | server.js:184-186 | a leave deletes the room exactly when the leaver was its only member; every other room stays, unchanged and in its place |
| Transitions.DepartureBroadcasts | server.js:172-193 | the last message of a leave broadcasts the listing of the new directory to everyone |
| Transitions.DepartureListsEmptiedRoom | server.js:172-187 | when a leave empties its room, the third of its four messages is a broadcast listing that still shows the room, with no members |
| Transitions.DepartureIdempotent | server.js:159-166 | since a leave keeps the binding, a second leave with it changes nothing and emits nothing |
| Transitions.JoinThenLeave | server.js:126-186 | joining under a fresh nickname and then leaving with the binding the join made restores the directory; a room that was empty before the join is deleted instead |
| Server.Session.constructor | server.js:35 | a new connection is unbound and has joined no study room's channel |
| Server.Directory.constructor | server.js:20 | the directory starts as an empty Map |
| Server.Directory.GetRooms | server.js:39-48 | `getRooms` sends the requester one `roomsList` message carrying the listing, and changes nothing |
| Server.Directory.SearchRooms | server.js:84-99 | `searchRooms` sends the requester one `roomsList` message carrying the search result, and changes nothing |
| Server.Directory.CreateRoom | server.js:51-81 | a missing or blank name gives `createRoomError` and no change. Otherwise the room is stored under the id, added at the end of the order when the id is new; the listing is broadcast and then `roomCreated` is sent; the invariant holds |
| Server.Directory.JoinRoom | server.js:102-156 | errors are checked in order: missing field, unknown room, nickname taken. Each error sends `joinRoomError` with its text and changes neither the directory nor the session. On success the nickname is appended, the session is bound and subscribed, and `roomJoined`, `memberJoined`, `membersUpdate` and the listing are emitted in that order |
| Server.Directory.LeaveRoom | server.js:159-199 | the directory becomes `Departed` of the old one and the events are `DepartureEvents`; the session is unchanged; the invariant holds |
| Server.Directory.Disconnect | server.js:202-243 | the same state change and the same events as `LeaveRoom`, stated by the same functions; the session is unchanged |
| Scenarios.StaleBinding | server.js:102-128 | a connection still bound to "Ken" in a room whose only member is "Cy" does not stop a second connection from joining as "Ken" |

## Left out

- The Express routes, static file serving, socket.io transport and CORS setup, `httpServer.listen` and all console output (`server.js:10-32`, `server.js:246-249`). They are runtime plumbing.
- Id and timestamp generation (`Date.now()`, `Math.random()`, `new Date().toISOString()`). They are nondeterministic, so `CreateRoom` takes the id and the time as parameters.
- Strings.ToLower: lowers only the ASCII letters A-Z. Full Unicode case mapping, such as full-width or accented letters, is not modelled.
- Strings.IsSpace follows ECMAScript's fixed list of white-space and line-terminator code points. It uses the space separators of current Unicode and does not track Unicode versions.
- Delivery of messages. Events are recorded with their addressees only; who receives a room multicast is not computed. socket.io's removal of a closed socket from its rooms is not modelled either.
- Payloads of the wrong type. Request fields are modelled as optional strings, and the search term as a string. The handlers accept some non-string values the model omits. In `joinRoom` (`server.js:102-128`) no string method is called on the fields: a falsy value such as `0`, `false` or `null` gets the missing-fields error, a truthy non-string `roomId` is not found, and a truthy non-string `nickname` such as `5` is pushed onto the member list and later found by `indexOf` (`server.js:163`). In `createRoom` a falsy non-string name gets `createRoomError`. The handler throws only where it calls a string method on a non-string: `trim` on a truthy name or description (`server.js:53`, `server.js:62`) and `toLowerCase` on the search term (`server.js:85`). A missing payload object makes `createRoom` and `joinRoom` throw too. None of these paths is modelled.
- Object identity. Rooms are values, and a change to a room's members is a `set` under the same key, which keeps its place. Messages carry snapshots, as socket.io serialises the payload at emit time.
- Strings are sequences of Unicode code points, where JavaScript uses UTF-16 code units. `trim`, `toLowerCase` and `includes` on well-formed text give the same answers either way, and no handler uses a string's length.
- The React client (`src/App.jsx`, `src/components/*.jsx`). It holds only rendering and the choice between `getRooms` and `searchRooms` by trimmed term.
