/** The relay itself: the server registry of `ServerRelay`, the command
    dispatcher that reads and changes it, the disconnect handler, the broadcasts
    and one pass of the stale-server sweep. Each operation returns the sends it
    makes, in the order it makes them. */
module Relay {
  import opened Text
  import opened Registry

  /** The command line and the argument lines of a received payload: the payload
      is stripped and split on newlines, and the first line is the command.
      Splitting always yields a first line, so an empty payload is the command
      `""`. */
  function Decode(data: string): (r: (string, seq<string>))
    ensures '\n' !in r.0
    ensures forall i :: 0 <= i < |r.1| ==> '\n' !in r.1[i]
    ensures Join([r.0] + r.1, '\n') == Strip(data, StrBlanks)
  {
    var parts := Split(Strip(data, StrBlanks), '\n');
    JoinSplit(Strip(data, StrBlanks), '\n');
    assert [parts[0]] + parts[1..] == parts;
    (parts[0], parts[1..])
  }

  class ServerRelay {
    /** The transport's peer table, in the order the host enumerates it. */
    const peers: seq<Peer>
    /** Seconds without a ping after which a record is stale. */
    const timeout: nat
    /** The peers whose transport state is "connected". */
    var connected: set<Peer>
    /** The registry's keys in insertion order (the iteration order of the dict). */
    var order: seq<ServerId>
    /** The registry: server id to record. */
    var servers: map<ServerId, ServerInfo>
    /** How many ids have been handed out. */
    var nextId: nat

    /** The registry is a well-formed ordered map of ids the relay issued, and
        every connected peer is in the peer table. */
    ghost predicate Registered()
      reads this
    {
      && Distinct(order)
      && (forall id :: id in order <==> id in servers)
      && servers.Keys <= IssuedBelow(nextId)
      && (forall p :: p in connected ==> p in peers)
    }

    /** In addition, every record is owned by a connected peer, and no text a
        `list` line prints holds a newline (peer hosts included, since
        `advertise` records the sender's host). */
    ghost predicate Valid()
      reads this
    {
      && Registered()
      && (forall id :: id in servers ==> servers[id].owner in connected)
      && (forall p :: p in peers ==> '\n' !in p.host)
      && (forall id :: id in servers ==> OneLine(id, servers[id]))
    }

    constructor (peers: seq<Peer>, timeout: nat)
      requires forall p :: p in peers ==> '\n' !in p.host
      ensures Valid()
      ensures this.peers == peers && this.timeout == timeout
      ensures connected == {} && order == [] && servers == map[] && nextId == 0
    {
      this.peers := peers;
      this.timeout := timeout;
      connected := {};
      order := [];
      servers := map[];
      nextId := 0;
    }

    // ------------------------------------------------------------ effects

    /** Nothing changed. */
    twostate predicate Kept()
      reads this
    {
      && order == old(order)
      && servers == old(servers)
      && nextId == old(nextId)
      && connected == old(connected)
    }

    /** Exactly one record was added, at the end of the order, under an id never
        handed out before. */
    twostate predicate Inserted(info: ServerInfo)
      reads this
    {
      var id := ServerIdOf(old(nextId));
      && id !in IssuedBelow(old(nextId))
      && servers == old(servers)[id := info]
      && order == old(order) + [id]
      && nextId == old(nextId) + 1
      && connected == old(connected)
    }

    /** Exactly the record `id` was deleted. */
    twostate predicate Removed(id: ServerId)
      reads this
    {
      && servers == old(servers) - {id}
      && order == Without(old(order), {id})
      && nextId == old(nextId)
      && connected == old(connected)
    }

    /** `add <addr> <port> <system> <name...>`. */
    twostate predicate AddDone(peer: Peer, args: seq<string>, now: nat, reply: string)
      reads this
    {
      if |args| < 4 then reply == AddArgsError && Kept()
      else match ParseInt(args[1])
        case None => reply == "add error " + IntLiteralError(args[1]) && Kept()
        case Some(port) =>
          && Inserted(ServerInfo(args[0], port, args[2], Join(args[3..], ' '), now, peer))
          && reply == "add " + ServerIdOf(old(nextId)) + " ok"
    }

    /** `ping <id>`. */
    twostate predicate PingDone(args: seq<string>, now: nat, reply: string)
      reads this
    {
      if |args| != 1 then reply == PingArgsError && Kept()
      else if args[0] in old(servers) then
        && servers == old(servers)[args[0] := old(servers)[args[0]].(lastPing := now)]
        && order == old(order)
        && nextId == old(nextId)
        && connected == old(connected)
        && reply == "ping " + args[0] + " ok"
      else reply == "ping " + args[0] + " error Unknown server" && Kept()
    }

    /** `remove <id>`: no ownership check and no broadcast. */
    twostate predicate RemoveDone(args: seq<string>, reply: string)
      reads this
    {
      if |args| != 1 then reply == RemoveArgsError && Kept()
      else if args[0] in old(servers) then Removed(args[0]) && reply == "remove " + args[0] + " ok"
      else reply == "remove " + args[0] + " error Unknown server" && Kept()
    }

    /** `advertise <system>`: the reply first, then the broadcast to every other
        connected peer. */
    twostate predicate AdvertiseDone(peer: Peer, args: seq<string>, now: nat, sends: seq<Send>)
      reads this
    {
      if |args| != 1 then sends == [Send(peer, AdvertiseArgsError)] && Kept()
      else
        && Inserted(ServerInfo(peer.host, peer.port, args[0], "Unknown", now, peer))
        && sends == [Send(peer, "advertise " + ServerIdOf(old(nextId)) + " ok")]
                    + Casts(peers, connected, AdvertiseMessage(args[0]), Some(peer))
    }

    /** `deadvertise <system>`: the first of the sender's own records for the
        system goes; the broadcast to every other connected peer comes before
        the reply. */
    twostate predicate DeadvertiseDone(peer: Peer, args: seq<string>, sends: seq<Send>)
      requires old(Registered())
      reads this
    {
      if |args| != 1 then sends == [Send(peer, DeadvertiseArgsError)] && Kept()
      else
        var q := OwnedSystem(args[0], peer);
        || (NoMatch(old(order), old(servers), q) && sends == [Send(peer, UnknownSystem)] && Kept())
        || exists k :: IsFirst(old(order), old(servers), q, k)
             && Removed(old(order)[k])
             && sends == Casts(peers, connected, DeadvertiseMessage(args[0]), Some(peer))
                         + [Send(peer, "deadvertise " + old(order)[k] + " ok")]
    }

    /** `find_peer <system...>`: the first record whose system equals the
        space-joined arguments ignoring case. */
    ghost predicate FindPeerReply(args: seq<string>, reply: string)
      requires Registered()
      reads this
    {
      if |args| == 0 then reply == FindPeerArgsError
      else
        var q := SystemNamed(Join(args, ' '));
        || (NoMatch(order, servers, q) && reply == NotHosted)
        || exists k :: IsFirst(order, servers, q, k) && reply == FoundLine(order[k], servers[order[k]])
    }

    // ------------------------------------------------------------ registry steps

    /** The transport reports a new connection; the relay only notes it. */
    method Connect(peer: Peer)
      requires Valid() && peer in peers
      modifies this`connected
      ensures Valid()
      ensures connected == old(connected) + {peer}
    {
      connected := connected + {peer};
    }

    /** The fresh-id supply that stands for `uuid4()`. */
    method NewId() returns (id: ServerId)
      modifies this`nextId
      ensures id == ServerIdOf(old(nextId)) && id !in IssuedBelow(old(nextId))
      ensures nextId == old(nextId) + 1
      ensures IssuedBelow(nextId) == IssuedBelow(old(nextId)) + {id}
    {
      FreshId(nextId);
      id := ServerIdOf(nextId);
      nextId := nextId + 1;
    }

    method Insert(id: ServerId, info: ServerInfo)
      requires Valid() && id !in servers && id in IssuedBelow(nextId) && info.owner in connected
      requires OneLine(id, info)
      modifies this`servers, this`order
      ensures Valid()
      ensures servers == old(servers)[id := info] && order == old(order) + [id]
    {
      servers := servers[id := info];
      order := order + [id];
    }

    /** Records a heartbeat: only the record's last-ping time changes. */
    method Touch(id: ServerId, now: nat)
      requires Valid() && id in servers
      modifies this`servers
      ensures Valid()
      ensures servers == old(servers)[id := old(servers)[id].(lastPing := now)]
    {
      ghost var servers0 := servers;
      var info := servers[id].(lastPing := now);
      servers := servers[id := info];
      assert servers.Keys == servers0.Keys;
      assert forall k :: k in servers ==> servers[k] == servers0[k] || (k == id && servers[k] == info);
    }

    method Delete(id: ServerId)
      requires Registered() && id in servers
      modifies this`servers, this`order
      ensures Registered()
      ensures servers == old(servers) - {id} && order == Without(old(order), {id})
    {
      servers := servers - {id};
      order := Without(order, {id});
    }

    /** The position of the first record, in iteration order, the query matches. */
    method FirstMatch(q: Query) returns (k: Option<nat>)
      requires Registered()
      ensures k.Some? ==> IsFirst(order, servers, q, k.value)
      ensures k.None? ==> NoMatch(order, servers, q)
    {
      var i := 0;
      while i < |order|
        invariant 0 <= i <= |order|
        invariant forall j :: 0 <= j < i ==> !Matches(q, servers[order[j]])
      {
        if Matches(q, servers[order[i]]) {
          return Some(i);
        }
        i := i + 1;
      }
      return None;
    }

    /** Sends `msg` to every peer of the table that is connected and is not the
        excluded one. */
    method Broadcast(msg: string, exclude: Option<Peer>) returns (sends: seq<Send>)
      ensures sends == Casts(peers, connected, msg, exclude)
    {
      sends := [];
      var i := 0;
      while i < |peers|
        invariant 0 <= i <= |peers|
        invariant sends == Casts(peers[..i], connected, msg, exclude)
      {
        var p := peers[i];
        if exclude != Some(p) && p in connected {
          sends := sends + [Send(p, msg)];
        }
        i := i + 1;
        assert peers[..i][..i - 1] == peers[..i - 1];
      }
      assert peers[..|peers|] == peers;
    }

    /** Deletes one record and tells every connected peer that its system is gone. */
    method Retire(id: ServerId) returns (casts: seq<Send>)
      requires Registered() && id in servers
      modifies this`servers, this`order
      ensures Registered()
      ensures servers == old(servers) - {id} && order == Without(old(order), {id})
      ensures casts == Casts(peers, connected, DeadvertiseMessage(old(servers)[id].system), None)
    {
      casts := Broadcast(DeadvertiseMessage(servers[id].system), None);
      Delete(id);
    }

    /** One turn of an eviction pass: retires the next collected id and keeps
        the pass's bookkeeping (what is gone so far, what was sent so far). */
    method EvictNext(ghost order0: seq<ServerId>, ghost servers0: map<ServerId, ServerInfo>,
                     gone: seq<ServerId>, i: nat, ghost removed: set<ServerId>, sends: seq<Send>)
      returns (sends': seq<Send>)
      requires Registered() && EvictedSoFar(order0, servers0, gone, i, removed, order, servers)
      requires i < |gone| && Distinct(gone) && forall id :: id in gone ==> id in servers0
      requires sends == Deadvertisements(gone[..i], servers0, peers, connected)
      modifies this`servers, this`order
      ensures Registered() && EvictedSoFar(order0, servers0, gone, i + 1, removed + {gone[i]}, order, servers)
      ensures sends' == Deadvertisements(gone[..i + 1], servers0, peers, connected)
    {
      EvictedOneMore(order0, servers0, gone, i, removed, order, servers);
      DeadvertisementsStep(gone, i, servers0, peers, connected);
      var casts := Retire(gone[i]);
      sends' := sends + casts;
    }

    /** Retires the given records one after the other, in the given order. */
    method RetireAll(gone: seq<ServerId>) returns (sends: seq<Send>)
      requires Registered() && Distinct(gone) && forall id :: id in gone ==> id in servers
      modifies this`servers, this`order
      ensures Registered()
      ensures servers == old(servers) - Elems(gone) && order == Without(old(order), Elems(gone))
      ensures sends == Deadvertisements(gone, old(servers), peers, connected)
    {
      ghost var order0, servers0 := order, servers;
      ghost var removed: set<ServerId> := {};
      WithoutNothing(order);
      sends := [];
      var i := 0;
      while i < |gone|
        invariant Registered() && EvictedSoFar(order0, servers0, gone, i, removed, order, servers)
        invariant sends == Deadvertisements(gone[..i], servers0, peers, connected)
      {
        sends := EvictNext(order0, servers0, gone, i, removed, sends);
        removed := removed + {gone[i]};
        i := i + 1;
      }
      EvictedEvery(order0, servers0, gone, removed, order, servers);
      assert gone[..i] == gone;
    }

    /** Collects the ids of the records the criterion selects, then retires them
        one by one: each is deleted and its system deadvertised to every
        connected peer, none excluded. */
    method Evict(c: Criterion) returns (sends: seq<Send>)
      requires Registered()
      modifies this`servers, this`order
      ensures Registered()
      ensures forall id :: id in servers <==> id in old(servers) && !Evicts(c, old(servers)[id])
      ensures forall id :: id in servers ==> servers[id] == old(servers)[id]
      ensures order == Without(old(order), old(servers).Keys - servers.Keys)
      ensures sends == Deadvertisements(Select(old(order), old(servers), c), old(servers), peers, connected)
    {
      ghost var order0, servers0 := order, servers;
      var gone := Select(order, servers, c);
      sends := RetireAll(gone);
      EvictedAll(order0, servers0, c, order, servers);
    }

    // ------------------------------------------------------------ events

    /** The transport reports that `peer` went away (its state is no longer
        "connected"): every record it owns is deleted and deadvertised. */
    method Disconnect(peer: Peer) returns (sends: seq<Send>)
      requires Valid()
      modifies this
      ensures Valid()
      ensures connected == old(connected) - {peer} && nextId == old(nextId)
      ensures forall id :: id in servers <==> id in old(servers) && old(servers)[id].owner != peer
      ensures forall id :: id in servers ==> servers[id] == old(servers)[id]
      ensures order == Without(old(order), old(servers).Keys - servers.Keys)
      ensures sends == Deadvertisements(Select(old(order), old(servers), OwnedBy(peer)), old(servers), peers, connected)
    {
      connected := connected - {peer};
      sends := Evict(OwnedBy(peer));
    }

    /** One pass of the cleanup thread at time `now`: every record whose last ping
        is more than `timeout` seconds old is deleted and deadvertised. */
    method Sweep(now: nat) returns (sends: seq<Send>)
      requires Valid()
      modifies this
      ensures Valid()
      ensures connected == old(connected) && nextId == old(nextId)
      ensures forall id :: id in servers <==> id in old(servers) && now - old(servers)[id].lastPing <= timeout
      ensures forall id :: id in servers ==> servers[id] == old(servers)[id]
      ensures order == Without(old(order), old(servers).Keys - servers.Keys)
      ensures sends == Deadvertisements(Select(old(order), old(servers), StaleAt(now, timeout)), old(servers), peers, connected)
    {
      sends := Evict(StaleAt(now, timeout));
      assert forall info :: Evicts(StaleAt(now, timeout), info) <==> now - info.lastPing > timeout;
    }

    // ------------------------------------------------------------ commands

    method HandleAdd(peer: Peer, args: seq<string>, now: nat) returns (reply: string)
      requires Valid() && peer in connected
      requires forall i :: 0 <= i < |args| ==> '\n' !in args[i]
      modifies this
      ensures Valid() && AddDone(peer, args, now, reply)
    {
      if |args| < 4 {
        return AddArgsError;
      }
      var addr, portText, system := args[0], args[1], args[2];
      var name := Join(args[3..], ' ');
      JoinAvoids(args[3..], ' ', '\n');
      var port := ParseInt(portText);
      if port.None? {
        return "add error " + IntLiteralError(portText);
      }
      var id := NewId();
      Insert(id, ServerInfo(addr, port.value, system, name, now, peer));
      reply := "add " + id + " ok";
    }

    /** `list` and `update`: `list empty` for an empty registry, otherwise one
        line per record in key order. */
    method HandleList() returns (reply: string)
      requires Valid()
      ensures reply == ListReply(order, servers)
      ensures order == [] <==> reply == "list empty"
      ensures order != [] ==> Split(reply, '\n') == Listing(order, servers)
    {
      forall id | id in order
        ensures '\n' !in ListLine(id, servers[id])
      {
        OneLineListed(id, servers[id]);
      }
      ListReplyLines(order, servers);
      IssuedAreDigits(order, nextId);
      ListReplyEmpty(order, servers);
      if servers == map[] {
        assert order == [];
        return "list empty";
      }
      reply := Join(Listing(order, servers), '\n');
    }

    method HandlePing(args: seq<string>, now: nat) returns (reply: string)
      requires Valid()
      modifies this
      ensures Valid() && PingDone(args, now, reply)
    {
      if |args| != 1 {
        return PingArgsError;
      }
      var id := args[0];
      if id in servers {
        Touch(id, now);
        reply := "ping " + id + " ok";
      } else {
        reply := "ping " + id + " error Unknown server";
      }
    }

    method HandleRemove(args: seq<string>) returns (reply: string)
      requires Valid()
      modifies this
      ensures Valid() && RemoveDone(args, reply)
    {
      if |args| != 1 {
        return RemoveArgsError;
      }
      var id := args[0];
      if id in servers {
        Delete(id);
        reply := "remove " + id + " ok";
      } else {
        reply := "remove " + id + " error Unknown server";
      }
    }

    method HandleAdvertise(peer: Peer, args: seq<string>, now: nat) returns (sends: seq<Send>)
      requires Valid() && peer in connected
      requires forall i :: 0 <= i < |args| ==> '\n' !in args[i]
      modifies this
      ensures Valid() && AdvertiseDone(peer, args, now, sends)
    {
      if |args| != 1 {
        return [Send(peer, AdvertiseArgsError)];
      }
      var system := args[0];
      var id := NewId();
      Insert(id, ServerInfo(peer.host, peer.port, system, "Unknown", now, peer));
      var casts := Broadcast(AdvertiseMessage(system), Some(peer));
      sends := [Send(peer, "advertise " + id + " ok")] + casts;
    }

    method HandleDeadvertise(peer: Peer, args: seq<string>) returns (sends: seq<Send>)
      requires Valid()
      modifies this
      ensures Valid() && DeadvertiseDone(peer, args, sends)
    {
      if |args| != 1 {
        return [Send(peer, DeadvertiseArgsError)];
      }
      var system := args[0];
      var found := FirstMatch(OwnedSystem(system, peer));
      if found.None? {
        return [Send(peer, UnknownSystem)];
      }
      var id := order[found.value];
      var casts := Broadcast(DeadvertiseMessage(system), Some(peer));
      Delete(id);
      sends := casts + [Send(peer, "deadvertise " + id + " ok")];
    }

    method HandleFindPeer(args: seq<string>) returns (reply: string)
      requires Registered()
      ensures FindPeerReply(args, reply)
    {
      if |args| == 0 {
        return FindPeerArgsError;
      }
      var found := FirstMatch(SystemNamed(Join(args, ' ')));
      if found.None? {
        return NotHosted;
      }
      var id := order[found.value];
      reply := FoundLine(id, servers[id]);
    }

    /** One received payload, already decoded from UTF-8. */
    method HandlePacket(peer: Peer, data: string, now: nat) returns (sends: seq<Send>)
      requires Valid() && peer in connected
      modifies this
      ensures Valid()
      ensures
        var cmd, args := Decode(data).0, Decode(data).1;
        if cmd == "add" then |sends| == 1 && sends[0].to == peer && AddDone(peer, args, now, sends[0].msg)
        else if cmd == "list" || cmd == "update" then sends == [Send(peer, ListReply(order, servers))] && Kept()
        else if cmd == "ping" then |sends| == 1 && sends[0].to == peer && PingDone(args, now, sends[0].msg)
        else if cmd == "remove" then |sends| == 1 && sends[0].to == peer && RemoveDone(args, sends[0].msg)
        else if cmd == "advertise" then AdvertiseDone(peer, args, now, sends)
        else if cmd == "deadvertise" then DeadvertiseDone(peer, args, sends)
        else if cmd == "find_peer" then
          |sends| == 1 && sends[0].to == peer && FindPeerReply(args, sends[0].msg) && Kept()
        else sends == [Send(peer, cmd + " error Unknown command")] && Kept()
    {
      var (cmd, args) := Decode(data);
      if cmd == "add" {
        var reply := HandleAdd(peer, args, now);
        sends := [Send(peer, reply)];
      } else if cmd == "list" || cmd == "update" {
        var reply := HandleList();
        sends := [Send(peer, reply)];
      } else if cmd == "ping" {
        var reply := HandlePing(args, now);
        sends := [Send(peer, reply)];
      } else if cmd == "remove" {
        var reply := HandleRemove(args);
        sends := [Send(peer, reply)];
      } else if cmd == "advertise" {
        sends := HandleAdvertise(peer, args, now);
      } else if cmd == "deadvertise" {
        sends := HandleDeadvertise(peer, args);
      } else if cmd == "find_peer" {
        var reply := HandleFindPeer(args);
        sends := [Send(peer, reply)];
      } else {
        sends := [Send(peer, cmd + " error Unknown command")];
      }
    }
  }
}
