# p2p_relay: the server registry and command dispatcher, in Dafny

`p2p_relay.py` is the root node of a multiplayer game's peer-to-peer network.
Game servers and clients connect to it over ENet and send line-oriented text
commands. The relay keeps a registry of game servers, each hosting a solar
system, and answers these commands:

- `add`, `list`/`update`, `ping`, `remove` and `find_peer`;
- `advertise` and `deadvertise`, which also broadcast to every other connected
  peer.

When a peer disconnects, its records are deleted and deadvertised. A cleanup
sweep does the same for records that have not pinged within the timeout.

This project models the `ServerRelay` class as a Dafny class, `Relay.ServerRelay`:

- **State.** The registry is an insertion-ordered dict. It is modelled by the
  map `servers` beside the key sequence `order`. The class also holds the set of
  `connected` peers, the host's peer table `peers` (in enumeration order) and a
  counter `nextId` that stands for `uuid4()`.
- **Handlers.** Every command handler is a method that updates the state in
  place. It returns what the relay sends, in order: the reply to the sender and
  every broadcast send. The dispatcher `HandlePacket` decodes a payload and picks
  a handler exactly as the source's if-chain does.
- **Contracts.** Each handler's effect is defined once, as a two-state predicate
  (`AddDone`, `PingDone`, `RemoveDone`, `AdvertiseDone`, `DeadvertiseDone`, or
  the one-state `FindPeerReply`). Both the handler and the dispatcher promise it.
- **Invariant.** `Valid` holds that:
  - the key order lists each registered id once;
  - every id was issued by the relay;
  - every record is owned by a connected peer;
  - no field a `list` line prints holds a newline.
- **Eviction.** `Disconnect` and one pass of the cleanup thread (`Sweep(now)`)
  share one eviction loop, `Evict`. It collects the doomed ids first, then
  retires them one at a time: broadcast, then delete.

The Python string operations the protocol rests on are modelled in module
`Text`: `strip`, `split`, `join`, `lower`, `int()`, `str()` of an int, and
`repr()` for the text of `int()`'s error. Messages, records and the pure
functions over the ordered registry are in module `Registry`.

Three points where the code's behaviour is easy to misread:

- Broadcast messages end with a newline, as in `advertise\n<system>\n`.
- `str.split` always returns at least one piece, so the empty-packet branch
  of `_handle_packet` can never run. An empty payload becomes the command `""`
  and is answered `" error Unknown command"`.
- `_handle_deadvertise` tests `if server_id:`. The ids the relay issues are
  never empty, so this is the same as "a match was found", which is how the
  model states it.

## Model

| member | source | states |
|---|---|---|
| Text.Strip | p2p_relay/p2p_relay.py:105 | the stripped text has no padding at either end, and it is empty exactly when the text is all padding. With `StrBlanks` the padding is `str.isspace`, as `.strip()` uses. With `IntBlanks` it is the set `int()` skips, which excludes U+001C..U+001F |
| Text.StripPadded | p2p_relay/p2p_relay.py:105 | whatever padding surrounds an unpadded text, stripping removes exactly that padding |
| Text.Split | p2p_relay/p2p_relay.py:106 | splitting always gives at least one piece, and no piece holds the separator (so the `if not parts` branch is dead) |
| Text.JoinSplit | p2p_relay/p2p_relay.py:105-111 | joining the pieces of a split with the same separator gives back the original text |
| Text.SplitJoin | p2p_relay/p2p_relay.py:180 | splitting a join gives back the pieces when none holds the separator |
| Text.Join | p2p_relay/p2p_relay.py:142 | `sep.join(parts)` starts with the first piece, and with two or more pieces the first separator comes right after it (also used at lines 180 and 300) |
| Text.JoinAvoids | p2p_relay/p2p_relay.py:142 | a character that neither the pieces nor the separator hold is not in the join (a space-joined name holds no newline) |
| Text.JoinStartsWithFirst | p2p_relay/p2p_relay.py:180 | a join starts with its first piece |
| Text.Lower | p2p_relay/p2p_relay.py:302 | lower-casing keeps the length and maps each character by itself |
| Text.LowerIdempotent | p2p_relay/p2p_relay.py:302 | lower-casing twice is lower-casing once |
| Text.IntToString | p2p_relay/p2p_relay.py:177 | a printed port is non-empty, made of digits and `-`, and has no surrounding whitespace |
| Text.ParseInt | p2p_relay/p2p_relay.py:143 | `int(port)` succeeds exactly when the text minus `int()`'s padding is an optional sign followed by at least one ASCII digit. The value is the digits' decimal value, negated after a `-` |
| Text.ParseIntToString | p2p_relay/p2p_relay.py:143 | `int(str(i)) == i` for every integer |
| Text.ParseIntPadded | p2p_relay/p2p_relay.py:143 | a printed integer reads back as itself whatever `int()` padding surrounds it |
| Text.SeparatorBlocksInt | p2p_relay/p2p_relay.py:143 | for every text `s` and every control character U+001C..U+001F in front of it, `int()` fails, while `str.strip()` removes that character as padding (so `"\x1c6000"` is rejected) |
| Text.NotPaddingFirst | p2p_relay/p2p_relay.py:143 | a text whose first character is not `int()` padding, a digit or a sign is not a number |
| Text.IntLiteralError | p2p_relay/p2p_relay.py:161-163 | the `ValueError` text is `invalid literal for int() with base 10: ` followed by `repr(s)` cut to its first 200 characters (`%.200R`), so it is at most 240 characters long |
| Text.IntLiteralErrorPlain | p2p_relay/p2p_relay.py:161-163 | for plain port text of at most 198 characters the `add error` message quotes the text whole; for longer text the closing quote is cut off and only the first 199 characters remain |
| Text.PyRepr | p2p_relay/p2p_relay.py:143 | `repr` of a str starts and ends with the quote Python picks for it |
| Text.PlainRepr | p2p_relay/p2p_relay.py:161-163 | `repr` of plain printable text is that text in single quotes (before the 200-character cut of the error message) |
| Text.DecimalRoundTrip | p2p_relay/p2p_relay.py:153 | reading back the decimal form of a counter gives the counter |
| Text.NatToDecimalInjective | p2p_relay/p2p_relay.py:153 | different counters give different ids |
| Registry.ServerIdOf | p2p_relay/p2p_relay.py:153 | an issued id is a non-empty digit string without a newline |
| Registry.FreshId | p2p_relay/p2p_relay.py:153 | the next id was never handed out before, and issuing it adds exactly that id to the issued set |
| Registry.IssuedAreDigits | p2p_relay/p2p_relay.py:249 | every id the relay issued is a non-empty digit string |
| Registry.MatchIgnoresCase | p2p_relay/p2p_relay.py:302 | a `find_peer` search gives the same answer for the text and for its lower-case form |
| Registry.Evicts | p2p_relay/p2p_relay.py:346-348 | the eviction conditions: the owner is the peer that went away (line 95), or the age is strictly greater than the timeout |
| Registry.Matches | p2p_relay/p2p_relay.py:273-274 | the search conditions: the `deadvertise` search wants the system and the sender as owner; the `find_peer` search wants equality after lower-casing both sides (line 302) |
| Registry.Select | p2p_relay/p2p_relay.py:95 | the collected ids are exactly the registered ids the criterion evicts (owner is the peer, or age strictly greater than the timeout), without repeats |
| Registry.Without | p2p_relay/p2p_relay.py:98 | deleting keys keeps exactly the other ids, without repeats; by definition it is an order-preserving filter |
| Registry.WithoutNothing | p2p_relay/p2p_relay.py:96-98 | deleting no key leaves the order unchanged |
| Registry.WithoutTwice | p2p_relay/p2p_relay.py:96-98 | deleting keys in two batches is deleting both batches at once |
| Registry.EvictedOneMore | p2p_relay/p2p_relay.py:350-353 | retiring the next collected id keeps the pass's registry equal to the original one minus the ids retired so far |
| Registry.EvictedEvery | p2p_relay/p2p_relay.py:96-98 | after the loop, every collected id has been deleted from the map and from the order |
| Registry.EvictedAll | p2p_relay/p2p_relay.py:346-353 | deleting the collected ids removes exactly the records the criterion evicts, leaves the others untouched and keeps their order |
| Registry.OneLineListed | p2p_relay/p2p_relay.py:177 | a record whose text fields hold no newline prints as one line |
| Registry.ListLine | p2p_relay/p2p_relay.py:177 | each `list` line starts with `list ` followed by the record's id |
| Registry.FoundLine | p2p_relay/p2p_relay.py:303 | the `find_peer` answer starts with `find_peer ` followed by the record's id |
| Registry.ListReply | p2p_relay/p2p_relay.py:169-180 | every `list`/`update` reply starts with `list `; a non-empty registry's reply starts with the first record's line |
| Registry.ListReplyLines | p2p_relay/p2p_relay.py:166-181 | the empty registry answers `list empty`; otherwise splitting the reply on newlines gives exactly one `list <id> <addr> <port> <system> <name>` line per record, in key order |
| Registry.ListReplyEmpty | p2p_relay/p2p_relay.py:169-171 | with issued ids, the reply is `list empty` if and only if the registry is empty |
| Registry.Announcement | p2p_relay/p2p_relay.py:320 | a broadcast text is the command and the system, each followed by a newline, so it splits back into the command, the system and an empty tail (same shape at line 332) |
| Registry.AdvertiseMessage | p2p_relay/p2p_relay.py:320 | the `advertise` broadcast is the announcement of `advertise` and the system |
| Registry.DeadvertiseMessage | p2p_relay/p2p_relay.py:332 | the `deadvertise` broadcast is the announcement of `deadvertise` and the system |
| Registry.Casts | p2p_relay/p2p_relay.py:321-323 | a broadcast has no more sends than there are table peers. Each send carries the message to a connected peer that is not the excluded one (the same loop is at lines 333-335) |
| Registry.CastsReach | p2p_relay/p2p_relay.py:317-339 | a broadcast reaches every connected peer of the table except the excluded one, each with the message, and no one else |
| Registry.Deadvertisements | p2p_relay/p2p_relay.py:96-97 | the sends of an eviction pass: one un-excluded `deadvertise` broadcast per removed id, in removal order (also lines 350-352); no more sends than removed ids times table peers, and every send goes to a connected peer |
| Registry.DeadvertisementsStep | p2p_relay/p2p_relay.py:96-97 | retiring one more record appends exactly one un-excluded `deadvertise` broadcast of its system |
| Registry.DeadvertisementsReach | p2p_relay/p2p_relay.py:96-98 | every connected peer hears of every removed record's system, and each send deadvertises some removed record's system |
| Relay.Decode | p2p_relay/p2p_relay.py:105-111 | the command and arguments are newline-free lines that join back to the stripped payload |
| Relay.ServerRelay.constructor | p2p_relay/p2p_relay.py:21-37 | a new relay has an empty registry, no connected peers, the given timeout, and is valid |
| Relay.ServerRelay.Connect | p2p_relay/p2p_relay.py:81-82 | a connect event only adds the peer to the connected set |
| Relay.ServerRelay.NewId | p2p_relay/p2p_relay.py:153 | the id handed out is fresh, and the issued set grows by exactly that id |
| Relay.ServerRelay.Insert | p2p_relay/p2p_relay.py:154 | the record is stored under its id, and the id goes to the end of the iteration order |
| Relay.ServerRelay.Touch | p2p_relay/p2p_relay.py:197 | only the record's `last_ping` changes, and it becomes `now` |
| Relay.ServerRelay.Delete | p2p_relay/p2p_relay.py:219 | exactly that record is deleted, and the rest keep their order |
| Relay.ServerRelay.FirstMatch | p2p_relay/p2p_relay.py:273-276 | the position found is the first, in iteration order, whose record matches; `None` means no record matches |
| Relay.ServerRelay.Broadcast | p2p_relay/p2p_relay.py:317-339 | the sends are one per connected, non-excluded peer, in peer-table order |
| Relay.ServerRelay.Retire | p2p_relay/p2p_relay.py:350-353 | deadvertises the record's system to every connected peer, then deletes exactly that record |
| Relay.ServerRelay.EvictNext | p2p_relay/p2p_relay.py:96-98 | one loop turn retires the next collected id, and the sends so far are one broadcast per retired id |
| Relay.ServerRelay.RetireAll | p2p_relay/p2p_relay.py:96-98 | retiring a list of ids deletes exactly them and sends one un-excluded broadcast per id, in list order |
| Relay.ServerRelay.Evict | p2p_relay/p2p_relay.py:346-353 | exactly the records the criterion selects are deleted; the rest are unchanged and keep their order; the sends are one broadcast per deleted record, in iteration order |
| Relay.ServerRelay.Disconnect | p2p_relay/p2p_relay.py:93-100 | exactly the records the peer owned are deleted and deadvertised to every still-connected peer; no surviving record belongs to a disconnected peer |
| Relay.ServerRelay.Sweep | p2p_relay/p2p_relay.py:341-353 | a record survives if and only if `now - last_ping <= timeout` (age equal to the timeout survives); survivors are unchanged; one broadcast per removed record |
| Relay.ServerRelay.HandleAdd | p2p_relay/p2p_relay.py:135-164 | fewer than 4 arguments, or a port `int()` rejects, answers `add error <message>` and changes nothing; otherwise one record (name = the remaining arguments joined by spaces) is added under a fresh id, and the reply is `add <id> ok` |
| Relay.ServerRelay.HandleList | p2p_relay/p2p_relay.py:166-181 | `list empty` if and only if the registry is empty; otherwise the reply splits into one line per record in key order; nothing changes |
| Relay.ServerRelay.HandlePing | p2p_relay/p2p_relay.py:189-209 | a known id gets only its `last_ping` set to `now` and `ping <id> ok`; an unknown id gets `ping <id> error Unknown server`; a wrong argument count gets `ping error ...`; neither error changes anything |
| Relay.ServerRelay.HandleRemove | p2p_relay/p2p_relay.py:211-231 | a known id is deleted with no ownership check and no broadcast; an unknown id gets `remove <id> error Unknown server` and nothing changes |
| Relay.ServerRelay.HandleAdvertise | p2p_relay/p2p_relay.py:233-263 | adds one record with the sender's host and port and name `Unknown` under a fresh id; replies `advertise <id> ok`, then sends `advertise\n<system>\n` to every other connected peer; a wrong argument count changes nothing |
| Relay.ServerRelay.HandleDeadvertise | p2p_relay/p2p_relay.py:265-292 | deletes only the first record, in iteration order, of that system owned by the sender; broadcasts to every other connected peer, then replies; with no match it replies `deadvertise error Unknown system` and changes nothing |
| Relay.ServerRelay.HandleFindPeer | p2p_relay/p2p_relay.py:294-315 | answers with the first record whose system equals the space-joined arguments ignoring case, or `find_peer error System not hosted`; reads the registry only |
| Relay.ServerRelay.HandlePacket | p2p_relay/p2p_relay.py:102-130 | the stripped payload's first line picks the handler, and the rest are its arguments; each command has exactly its handler's effect; `list`/`update`/`find_peer` change nothing; any other command, the empty one included, gets `<cmd> error Unknown command` |

## Left out

- The ENet transport (`enet.Host`, `service`, packets, reliability flags) is left out. A `peer.send` is recorded as a `Send(peer, text)` in the returned sequence. A peer's state is membership in `connected`. The host's peer table is a fixed sequence.
- UTF-8 decoding and the `UnicodeDecodeError` path are left out. `HandlePacket` takes the already-decoded text.
- The daemon cleanup thread, its ten-second sleep and its race with the event loop are left out. `Sweep` is one atomic pass of the loop body.
- `time.time()` and the float timeout are left out. Times are natural-number seconds passed in as `now`.
- `uuid4()` is replaced by a counter whose decimal form is the id. What the model keeps is that an id is never handed out twice.
- `start`, `stop`, `main`, logging, and the `except Exception` catch-alls around the event loop, `list`, the cleanup loop and the broadcasts are left out. Nothing in the model can raise.
- Relay.ServerRelay.HandleAdd requires that no argument holds a newline. The dispatcher guarantees this, because arguments are lines of the payload.
- Relay.ServerRelay.HandleAdvertise requires the same, and the constructor requires that no peer's host holds a newline. Together these keep every `list` line on one line.
- Text.ParseInt models `int()`'s padding, an optional sign and ASCII digits. It does not model underscores between digits, non-ASCII digits, or the 4300-digit limit and its different error text.
- Text.Lower maps only the ASCII letters `A`-`Z`. `str.lower` of other scripts is not modelled.
- Text.PyRepr escapes control characters like Python does. It writes every other non-ASCII character as itself, so it does not model the `\u` escapes Python uses for unprintable non-ASCII characters.
