/** The values the relay keeps and sends: peers, server records, the messages of
    the protocol, and the pure functions over an insertion-ordered registry
    (the key order `ids` beside the map `servers`) that the handlers are
    specified by. */
module Registry {
  import opened Text

  /** Server ids are text; the relay issues the decimal form of a counter. */
  type ServerId = string

  /** A transport connection: its slot in the host's peer table and the address
      it connected from. */
  datatype Peer = Peer(slot: nat, host: string, port: int)

  /** One registered game server. */
  datatype ServerInfo = ServerInfo(
    addr: string,
    port: int,
    system: string,
    name: string,
    lastPing: nat,
    owner: Peer)

  /** One `peer.send`: the peer and the text sent to it. */
  datatype Send = Send(to: Peer, msg: string)

  predicate Distinct(ids: seq<ServerId>) {
    forall i, j :: 0 <= i < j < |ids| ==> ids[i] != ids[j]
  }

  // ---------------------------------------------------------------- ids

  /** The `n`-th id the relay hands out. */
  function ServerIdOf(n: nat): (id: ServerId)
    ensures id != [] && AllDigits(id) && '\n' !in id
  {
    var s := NatToDecimal(n);
    assert forall k :: 0 <= k < |s| ==> s[k] != '\n';
    s
  }

  /** The ids handed out before the counter reached `n`. */
  ghost function IssuedBelow(n: nat): set<ServerId> {
    set k | 0 <= k < n :: ServerIdOf(k)
  }

  /** The next id is none of the ids handed out before it. */
  lemma FreshId(n: nat)
    ensures ServerIdOf(n) !in IssuedBelow(n)
    ensures IssuedBelow(n + 1) == IssuedBelow(n) + {ServerIdOf(n)}
  {
    if ServerIdOf(n) in IssuedBelow(n) {
      var k :| 0 <= k < n && ServerIdOf(k) == ServerIdOf(n);
      NatToDecimalInjective(k, n);
    }
  }

  /** Every issued id is a non-empty string of digits. */
  lemma IssuedAreDigits(ids: seq<ServerId>, n: nat)
    requires forall id :: id in ids ==> id in IssuedBelow(n)
    ensures forall i :: 0 <= i < |ids| ==> ids[i] != [] && AllDigits(ids[i])
  {
    forall i | 0 <= i < |ids|
      ensures ids[i] != [] && AllDigits(ids[i])
    {
      assert ids[i] in IssuedBelow(n);
      var k :| 0 <= k < n && ServerIdOf(k) == ids[i];
    }
  }

  // ---------------------------------------------------------------- filters

  /** Which records an eviction pass removes: those owned by a peer that went
      away, or those whose last heartbeat is more than `timeout` seconds old. */
  datatype Criterion = OwnedBy(peer: Peer) | StaleAt(now: nat, timeout: nat)

  predicate Evicts(c: Criterion, info: ServerInfo) {
    match c
    case OwnedBy(peer) => info.owner == peer
    case StaleAt(now, timeout) => now - info.lastPing > timeout
  }

  /** Which record a search looks for: `deadvertise` wants the sender's own
      record for a system, `find_peer` any record whose system equals the text
      ignoring case. */
  datatype Query = OwnedSystem(system: string, owner: Peer) | SystemNamed(text: string)

  predicate Matches(q: Query, info: ServerInfo) {
    match q
    case OwnedSystem(system, owner) => info.system == system && info.owner == owner
    case SystemNamed(text) => Lower(info.system) == Lower(text)
  }

  /** A `find_peer` search does not depend on the case of the text asked for. */
  lemma MatchIgnoresCase(text: string, info: ServerInfo)
    ensures Matches(SystemNamed(text), info) == Matches(SystemNamed(Lower(text)), info)
  {
    LowerIdempotent(text);
  }

  /** The ids, in order, of the records the criterion selects (the list
      comprehension that collects the ids before deleting them). */
  function Select(ids: seq<ServerId>, servers: map<ServerId, ServerInfo>, c: Criterion): (r: seq<ServerId>)
    requires forall id :: id in ids ==> id in servers
    ensures forall id :: id in r <==> id in ids && Evicts(c, servers[id])
    ensures Distinct(ids) ==> Distinct(r)
  {
    if ids == [] then []
    else
      var rest := Select(ids[1..], servers, c);
      if Evicts(c, servers[ids[0]]) then [ids[0]] + rest else rest
  }

  /** The key order once the keys in `gone` are deleted. */
  function Without(ids: seq<ServerId>, gone: set<ServerId>): (r: seq<ServerId>)
    ensures forall id :: id in r <==> id in ids && id !in gone
    ensures Distinct(ids) ==> Distinct(r)
  {
    if ids == [] then []
    else
      var rest := Without(ids[1..], gone);
      if ids[0] in gone then rest else [ids[0]] + rest
  }

  /** Deleting no key leaves the order as it is. */
  lemma {:induction false} WithoutNothing(ids: seq<ServerId>)
    ensures Without(ids, {}) == ids
  {
    if ids != [] {
      WithoutNothing(ids[1..]);
      assert ids == [ids[0]] + ids[1..];
    }
  }

  /** Deleting two batches of keys one after the other is deleting both at once. */
  lemma {:induction false} WithoutTwice(ids: seq<ServerId>, a: set<ServerId>, b: set<ServerId>)
    ensures Without(Without(ids, a), b) == Without(ids, a + b)
  {
    if ids != [] {
      WithoutTwice(ids[1..], a, b);
    }
  }

  /** Deleting two batches of keys from the map one after the other is deleting both at once. */
  lemma DropTwice(servers: map<ServerId, ServerInfo>, a: set<ServerId>, b: set<ServerId>)
    ensures (servers - a) - b == servers - (a + b)
  {
  }

  /** Where an eviction pass stands after deleting the first `i` of the ids
      `gone` it collected from the registry `order0`/`servers0`: `removed` holds
      exactly those `i` ids, and the registry is the original one without them. */
  ghost predicate EvictedSoFar(order0: seq<ServerId>, servers0: map<ServerId, ServerInfo>, gone: seq<ServerId>,
                               i: int, removed: set<ServerId>, order: seq<ServerId>, servers: map<ServerId, ServerInfo>)
  {
    && 0 <= i <= |gone|
    && (forall id :: id in removed <==> id in gone[..i])
    && servers == servers0 - removed
    && order == Without(order0, removed)
  }

  /** Deleting the next collected id keeps the pass on track. */
  lemma EvictedOneMore(order0: seq<ServerId>, servers0: map<ServerId, ServerInfo>, gone: seq<ServerId>,
                       i: int, removed: set<ServerId>, order: seq<ServerId>, servers: map<ServerId, ServerInfo>)
    requires EvictedSoFar(order0, servers0, gone, i, removed, order, servers)
    requires i < |gone| && Distinct(gone) && forall id :: id in gone ==> id in servers0
    ensures gone[i] in servers && servers[gone[i]] == servers0[gone[i]]
    ensures EvictedSoFar(order0, servers0, gone, i + 1, removed + {gone[i]},
                         Without(order, {gone[i]}), servers - {gone[i]})
  {
    var id := gone[i];
    assert gone[..i + 1] == gone[..i] + [id];
    assert id !in gone[..i];
    WithoutTwice(order0, removed, {id});
    DropTwice(servers0, removed, {id});
  }

  /** The ids a sequence holds. */
  ghost function Elems(ids: seq<ServerId>): set<ServerId> {
    set id | id in ids
  }

  /** At the end of the pass every collected id is gone. */
  lemma EvictedEvery(order0: seq<ServerId>, servers0: map<ServerId, ServerInfo>, gone: seq<ServerId>,
                     removed: set<ServerId>, order: seq<ServerId>, servers: map<ServerId, ServerInfo>)
    requires EvictedSoFar(order0, servers0, gone, |gone|, removed, order, servers)
    ensures servers == servers0 - Elems(gone) && order == Without(order0, Elems(gone))
  {
    assert gone[..|gone|] == gone;
    assert removed == Elems(gone);
  }

  /** Deleting exactly the records the criterion selects removes the records it
      evicts, keeps the others untouched, and keeps the survivors' order. */
  lemma EvictedAll(order0: seq<ServerId>, servers0: map<ServerId, ServerInfo>, c: Criterion,
                   order: seq<ServerId>, servers: map<ServerId, ServerInfo>)
    requires forall id :: id in order0 <==> id in servers0
    requires servers == servers0 - Elems(Select(order0, servers0, c))
    requires order == Without(order0, Elems(Select(order0, servers0, c)))
    ensures forall id :: id in servers <==> id in servers0 && !Evicts(c, servers0[id])
    ensures forall id :: id in servers ==> servers[id] == servers0[id]
    ensures order == Without(order0, servers0.Keys - servers.Keys)
  {
    assert Elems(Select(order0, servers0, c)) == servers0.Keys - servers.Keys;
  }

  /** The first record, in key order, that the query matches is at position `k`. */
  ghost predicate IsFirst(ids: seq<ServerId>, servers: map<ServerId, ServerInfo>, q: Query, k: int)
    requires forall id :: id in ids ==> id in servers
  {
    && 0 <= k < |ids|
    && Matches(q, servers[ids[k]])
    && forall j :: 0 <= j < k ==> !Matches(q, servers[ids[j]])
  }

  /** The query matches no record. */
  ghost predicate NoMatch(ids: seq<ServerId>, servers: map<ServerId, ServerInfo>, q: Query)
    requires forall id :: id in ids ==> id in servers
  {
    forall j :: 0 <= j < |ids| ==> !Matches(q, servers[ids[j]])
  }

  // ---------------------------------------------------------------- replies

  /** The fields of a record as `list` and `find_peer` print them. */
  function Fields(id: ServerId, info: ServerInfo): string {
    id + " " + info.addr + " " + IntToString(info.port) + " " + info.system + " " + info.name
  }

  function ListLine(id: ServerId, info: ServerInfo): (r: string)
    ensures |r| >= 5 + |id| && r[..5] == "list " && r[5..5 + |id|] == id
  {
    "list " + Fields(id, info)
  }

  function FoundLine(id: ServerId, info: ServerInfo): (r: string)
    ensures |r| >= 10 + |id| && r[..10] == "find_peer " && r[10..10 + |id|] == id
  {
    "find_peer " + Fields(id, info)
  }

  /** One `list` line per record, in key order. */
  function Listing(ids: seq<ServerId>, servers: map<ServerId, ServerInfo>): (lines: seq<string>)
    requires forall id :: id in ids ==> id in servers
  {
    seq(|ids|, i requires 0 <= i < |ids| => ListLine(ids[i], servers[ids[i]]))
  }

  /** No field of the record that a `list` line prints holds a newline. */
  predicate OneLine(id: ServerId, info: ServerInfo) {
    '\n' !in id && '\n' !in info.addr && '\n' !in info.system && '\n' !in info.name
  }

  /** A record whose fields hold no newline is listed on exactly one line. */
  lemma OneLineListed(id: ServerId, info: ServerInfo)
    requires OneLine(id, info)
    ensures '\n' !in ListLine(id, info)
  {
    var p := IntToString(info.port);
    assert forall k :: 0 <= k < |p| ==> p[k] != '\n';
  }

  /** The reply to `list` and `update`. */
  function ListReply(ids: seq<ServerId>, servers: map<ServerId, ServerInfo>): (r: string)
    requires forall id :: id in ids ==> id in servers
    ensures |r| >= 5 && r[..5] == "list "
    ensures ids != [] ==> ListLine(ids[0], servers[ids[0]]) <= r
  {
    if ids == [] then "list empty"
    else
      var lines := Listing(ids, servers);
      JoinStartsWithFirst(lines, '\n');
      Join(lines, '\n')
  }

  /** A client that splits the `list` reply on newlines gets back exactly one
      line per record, in key order, each with that record's fields, as long as
      no field holds a newline. An empty registry answers `list empty`. */
  lemma ListReplyLines(ids: seq<ServerId>, servers: map<ServerId, ServerInfo>)
    requires forall id :: id in ids ==> id in servers
    ensures ids == [] ==> ListReply(ids, servers) == "list empty"
    ensures (forall id :: id in ids ==> '\n' !in ListLine(id, servers[id])) ==>
      && (ids != [] ==> Split(ListReply(ids, servers), '\n') == Listing(ids, servers))
      && (forall i :: 0 <= i < |ids| ==>
            ListLine(ids[i], servers[ids[i]]) in Split(ListReply(ids, servers), '\n'))
  {
    if ids != [] && forall id :: id in ids ==> '\n' !in ListLine(id, servers[id]) {
      var lines := Listing(ids, servers);
      assert forall i :: 0 <= i < |lines| ==> lines[i] == ListLine(ids[i], servers[ids[i]]);
      SplitJoin(lines, '\n');
    }
  }

  /** A registry of issued ids never answers `list empty` unless it is empty:
      a real first line carries a digit where `empty` has its `e`. */
  lemma ListReplyEmpty(ids: seq<ServerId>, servers: map<ServerId, ServerInfo>)
    requires forall id :: id in ids ==> id in servers
    requires forall i :: 0 <= i < |ids| ==> ids[i] != [] && AllDigits(ids[i])
    ensures ListReply(ids, servers) == "list empty" <==> ids == []
  {
    if ids != [] {
      var lines := Listing(ids, servers);
      JoinStartsWithFirst(lines, '\n');
      assert lines[0][5] == ids[0][0];
      assert IsDigit(ids[0][0]);
    }
  }

  // ---------------------------------------------------------------- errors

  const AddArgsError := "add error Too few arguments: expected addr, port, system, name"
  const PingArgsError := "ping error Invalid ping command: expected server_id"
  const RemoveArgsError := "remove error Invalid remove command: expected server_id"
  const AdvertiseArgsError := "advertise error Invalid advertise command: expected system"
  const DeadvertiseArgsError := "deadvertise error Invalid deadvertise command: expected system"
  const FindPeerArgsError := "find_peer error Invalid find_peer command: expected solar_system"
  const UnknownSystem := "deadvertise error Unknown system"
  const NotHosted := "find_peer error System not hosted"

  // ---------------------------------------------------------------- broadcasts

  /** The text of a broadcast: the command and the system, each on its own
      line. A peer that splits it on newlines reads the command, the system and
      an empty tail. */
  function Announcement(command: string, system: string): (r: string)
    ensures '\n' !in command && '\n' !in system ==> Split(r, '\n') == [command, system, ""]
  {
    var r := command + "\n" + system + "\n";
    if '\n' !in command && '\n' !in system then
      var parts := [command, system, ""];
      assert parts[1..] == [system, ""] && parts[1..][1..] == [""];
      assert Join(parts[1..], '\n') == system + "\n" + "";
      assert r == Join(parts, '\n');
      SplitJoin(parts, '\n');
      r
    else r
  }

  function AdvertiseMessage(system: string): string {
    Announcement("advertise", system)
  }

  function DeadvertiseMessage(system: string): string {
    Announcement("deadvertise", system)
  }

  /** The sends of one broadcast of `msg`: to each peer of the table, in table
      order, that is connected and is not the excluded one. */
  function Casts(peers: seq<Peer>, connected: set<Peer>, msg: string, exclude: Option<Peer>): (r: seq<Send>)
    ensures |r| <= |peers|
    ensures forall i :: 0 <= i < |r| ==> r[i].msg == msg && r[i].to in connected && exclude != Some(r[i].to)
  {
    if peers == [] then []
    else
      var p := peers[|peers| - 1];
      Casts(peers[..|peers| - 1], connected, msg, exclude)
        + (if exclude != Some(p) && p in connected then [Send(p, msg)] else [])
  }

  /** A broadcast reaches exactly the connected peers of the table other than the
      excluded one, each with the message. */
  lemma {:induction false} CastsReach(peers: seq<Peer>, connected: set<Peer>, msg: string, exclude: Option<Peer>)
    ensures forall s :: s in Casts(peers, connected, msg, exclude) ==>
      s.msg == msg && s.to in peers && s.to in connected && exclude != Some(s.to)
    ensures forall p :: p in peers && p in connected && exclude != Some(p) ==>
      Send(p, msg) in Casts(peers, connected, msg, exclude)
  {
    if peers != [] {
      var init := peers[..|peers| - 1];
      CastsReach(init, connected, msg, exclude);
      assert peers == init + [peers[|peers| - 1]];
    }
  }

  /** The sends of an eviction pass: one un-excluded `deadvertise` broadcast per
      removed record, in the order the records are removed. */
  function Deadvertisements(gone: seq<ServerId>, servers: map<ServerId, ServerInfo>,
                            peers: seq<Peer>, connected: set<Peer>): (r: seq<Send>)
    requires forall id :: id in gone ==> id in servers
    ensures |r| <= |gone| * |peers|
    ensures forall i :: 0 <= i < |r| ==> r[i].to in connected
  {
    if gone == [] then []
    else
      var last := gone[|gone| - 1];
      Deadvertisements(gone[..|gone| - 1], servers, peers, connected)
        + Casts(peers, connected, DeadvertiseMessage(servers[last].system), None)
  }

  /** One more removed record adds one broadcast at the end. */
  lemma DeadvertisementsStep(gone: seq<ServerId>, i: nat, servers: map<ServerId, ServerInfo>,
                             peers: seq<Peer>, connected: set<Peer>)
    requires i < |gone|
    requires forall id :: id in gone ==> id in servers
    ensures Deadvertisements(gone[..i + 1], servers, peers, connected)
      == Deadvertisements(gone[..i], servers, peers, connected)
         + Casts(peers, connected, DeadvertiseMessage(servers[gone[i]].system), None)
  {
    assert gone[..i + 1][..i] == gone[..i];
  }

  /** Every connected peer of the table hears of every removed record's system,
      and nothing else is sent: each send is a `deadvertise` of some removed
      record's system to a connected peer. */
  lemma {:induction false} DeadvertisementsReach(gone: seq<ServerId>, servers: map<ServerId, ServerInfo>,
                                                 peers: seq<Peer>, connected: set<Peer>)
    requires forall id :: id in gone ==> id in servers
    ensures forall s :: s in Deadvertisements(gone, servers, peers, connected) ==>
      && s.to in peers && s.to in connected
      && exists id :: id in gone && s.msg == DeadvertiseMessage(servers[id].system)
    ensures forall id, p :: id in gone && p in peers && p in connected ==>
      Send(p, DeadvertiseMessage(servers[id].system)) in Deadvertisements(gone, servers, peers, connected)
  {
    if gone != [] {
      var init := gone[..|gone| - 1];
      var last := gone[|gone| - 1];
      assert gone == init + [last];
      DeadvertisementsReach(init, servers, peers, connected);
      CastsReach(peers, connected, DeadvertiseMessage(servers[last].system), None);
    }
  }
}
