/**
 * The stateful part of the server: one listener per port (ServidorPuerto)
 * with its session registry, and the port table of the main window
 * (PrincipalSrv.servidores). Every method is proved against the functions of
 * Registry and ServerCodec.
 */
module Server {
  import opened Wrappers
  import opened JavaText
  import opened ServerCodec
  import opened Registry

  /** One `ServidorPuerto`: the accept loop's flag, the registry `clientes`,
      the image directory of the port and the source of socket identities. */
  class PortListener {
    const port: int
    var active: bool
    var clients: seq<Session>
    var images: map<string, seq<byte>>
    var nextId: nat

    ghost predicate Valid()
      reads this
    {
      DistinctIds(clients) && IdsBelow(clients, nextId)
    }

    /** A new listener starts active with no sessions; the image directory
        keeps whatever files an earlier listener on the port left there. */
    constructor (port: int, images: map<string, seq<byte>>)
      ensures this.port == port && active && clients == [] && this.images == images && nextId == 0
      ensures Valid()
    {
      this.port := port;
      active := true;
      clients := [];
      this.images := images;
      nextId := 0;
    }

    /** One turn of the accept loop in `run`: while the listener is active a
        new socket is registered under the alias `Anon_<hex>`. */
    method Accept(hashHex: string) returns (id: Option<nat>)
      requires Valid()
      modifies this`clients, this`nextId
      ensures Valid()
      ensures old(active) ==> id == Some(old(nextId)) && clients == Admit(old(clients), old(nextId), hashHex) && nextId == old(nextId) + 1
      ensures !old(active) ==> id == None && clients == old(clients) && nextId == old(nextId)
    {
      if !active {
        return None;
      }
      id := Some(nextId);
      clients := clients + [Session(nextId, Alias(hashHex), [])];
      nextId := nextId + 1;
    }

    /** `broadcast`: the line is written to every registered session. */
    method Broadcast(line: string)
      requires Valid()
      modifies this`clients
      ensures clients == Post(old(clients), line)
      ensures Valid()
    {
      var i := 0;
      while i < |clients|
        invariant 0 <= i <= |clients| == |old(clients)|
        invariant forall j :: 0 <= j < i ==> clients[j] == old(clients)[j].(outbox := old(clients)[j].outbox + [line])
        invariant forall j :: i <= j < |clients| ==> clients[j] == old(clients)[j]
      {
        clients := clients[i := clients[i].(outbox := clients[i].outbox + [line])];
        i := i + 1;
      }
    }

    /** `enviarPrivado`: the line goes to the first session named `name` and
        the search stops there. */
    method SendPrivate(name: string, line: string)
      requires Valid()
      modifies this`clients
      ensures clients == Deliver(old(clients), name, line)
      ensures Valid()
    {
      var i := 0;
      while i < |clients|
        invariant 0 <= i <= |clients|
        invariant clients == old(clients)
        invariant forall j :: 0 <= j < i ==> clients[j].user != name
      {
        if clients[i].user == name {
          clients := clients[i := clients[i].(outbox := clients[i].outbox + [line])];
          return;
        }
        i := i + 1;
      }
    }

    /** `broadcastSistema` */
    method BroadcastSystem(time: string, text: string)
      requires Valid()
      modifies this`clients
      ensures clients == Post(old(clients), SystemLine(time, text))
      ensures Valid()
    {
      Broadcast(SystemLine(time, text));
    }

    /** `broadcastUsuarios`: the roster of the current registry to everyone. */
    method BroadcastRoster()
      requires Valid()
      modifies this`clients
      ensures clients == Post(old(clients), UsersLine(Roster(old(clients))))
      ensures Valid()
    {
      var names := Roster(clients);
      Broadcast(UsersLine(names));
    }

    /** `guardarImagen`: decodes the payload and writes the file; the name of
        the file, or "(error)", is returned. */
    method SaveImage(user: string, payload: string, tick: Tick) returns (name: string)
      modifies this`images
      ensures name == SavedName(user, payload, tick)
      ensures images == StoreImage(old(images), user, payload, tick)
    {
      var decoded := Base64.Decode(payload);
      if decoded.None? {
        return "(error)";
      }
      var bytes := decoded.value;
      var ext := DetectExtension(bytes);
      var safe := SafeName(user);
      var fileName := tick.stamp + "_" + safe + "." + ext;
      if !tick.writable {
        return "(error)";
      }
      var previous := if fileName in images then Some(images[fileName]) else None;
      images := images[fileName := Overwrite(previous, bytes)];
      name := fileName;
    }

    /** The body of the read loop in `manejarCliente`: the prefix dispatch. */
    method HandleLine(user: string, line: string, tick: Tick)
      requires Valid()
      modifies this`clients, this`images
      ensures clients == Effect(old(clients), user, line, tick.time)
      ensures images == ImageEffect(old(images), user, line, tick)
      ensures Valid()
    {
      if "MSG:" <= line {
        var content := Trim(line[4..]);
        Broadcast(ChatBroadcast(user, tick.time, content));
      } else if "MSGTO:" <= line {
        var parts := SplitLimit(line, ':', 3);
        if |parts| == 3 {
          var to := Trim(parts[1]);
          var content := Trim(parts[2]);
          SendPrivate(to, PrivateDelivery(user, content));
        }
      } else if "IMG:" <= line {
        var payload := Trim(line[4..]);
        var saved := SaveImage(user, payload, tick);
        Broadcast(ImageBroadcast(user, tick.time, payload));
      }
    }

    /** The start of `manejarCliente`: the first line names the session when
        it is a `USER:` line, then the join is announced. */
    method Join(id: nat, alias: string, first: Option<string>, time: string) returns (user: string)
      requires Valid()
      requires forall i :: 0 <= i < |clients| && clients[i].id == id ==> clients[i].user == alias
      modifies this`clients
      ensures user == Handshake(alias, first)
      ensures clients == Joined(old(clients), id, alias, first, time)
      ensures Valid()
    {
      user := alias;
      if first.Some? && "USER:" <= first.value {
        user := Sanitize(Trim(first.value[5..]));
        clients := Rename(clients, id, user);
      }
      BroadcastSystem(time, JoinedText(user));
      BroadcastRoster();
    }

    /** The `finally` block of `manejarCliente`. */
    method Leave(id: nat, user: string, time: string)
      requires Valid()
      modifies this`clients
      ensures clients == Left(old(clients), id, user, time)
      ensures Valid()
    {
      var remaining := Without(clients, id);
      forall i | 0 <= i < |remaining| ensures remaining[i].id < nextId {
        assert remaining[i] in clients;
      }
      clients := remaining;
      BroadcastSystem(time, LeftText(user));
      BroadcastRoster();
    }

    /** The read loop of `manejarCliente`: every line, the first one
        included, goes through the prefix dispatch; line k at `tick(k)`. */
    method ReadLoop(user: string, lines: seq<string>, tick: nat -> Tick)
      requires Valid()
      modifies this`clients, this`images
      ensures clients == Replay(old(clients), user, lines, tick)
      ensures images == ReplayImages(old(images), user, lines, tick)
      ensures Valid()
    {
      ghost var clients0, images0 := clients, images;
      var i := 0;
      while i < |lines|
        invariant 0 <= i <= |lines|
        invariant Valid()
        invariant clients == Replay(clients0, user, lines[..i], tick)
        invariant images == ReplayImages(images0, user, lines[..i], tick)
      {
        ReplayStep(clients0, images0, user, lines, tick, i);
        HandleLine(user, lines[i], tick(i));
        i := i + 1;
      }
      assert lines[..|lines|] == lines;
    }

    /** `manejarCliente` for a session whose reader yields `lines` and then
        the end of the stream: handshake, join, the read loop, then leave. */
    method Serve(id: nat, alias: string, lines: seq<string>, joinTime: string, tick: nat -> Tick, leaveTime: string)
      requires Valid()
      requires forall i :: 0 <= i < |clients| && clients[i].id == id ==> clients[i].user == alias
      modifies this`clients, this`images
      ensures var first := if |lines| > 0 then Some(lines[0]) else None;
        var user := Handshake(alias, first);
        && clients == Left(Replay(Joined(old(clients), id, alias, first, joinTime), user, lines, tick), id, user, leaveTime)
        && images == ReplayImages(old(images), user, lines, tick)
      ensures Valid()
    {
      var first := if |lines| > 0 then Some(lines[0]) else None;
      var user := Join(id, alias, first, joinTime);
      ReadLoop(user, lines, tick);
      Leave(id, user, leaveTime);
    }

    /** `cerrarTodo`: every socket is closed and the registry emptied. */
    method CloseAll()
      modifies this`clients
      ensures clients == []
    {
      clients := [];
    }

    /** `detener`: the accept loop ends and the registry is emptied; stopping
        a stopped listener changes nothing more. */
    method Stop()
      modifies this`active, this`clients
      ensures !active && clients == []
    {
      active := false;
      CloseAll();
    }
  }

  /** The port table of the main window: `servidores`, the automatic
      restarts that `detenerServidor` schedules, in the order scheduled, and
      the image directory `server_data/port_N/images` each stopped listener
      left on disk. */
  class PortManager {
    var servers: map<int, PortListener>
    var pendingRestarts: seq<int>
    var directories: map<int, map<string, seq<byte>>>

    ghost predicate Valid()
      reads this, servers.Values
    {
      forall p :: p in servers ==> servers[p].port == p
    }

    constructor (directories: map<int, map<string, seq<byte>>>)
      ensures servers == map[] && pendingRestarts == [] && this.directories == directories
      ensures Valid()
    {
      servers := map[];
      pendingRestarts := [];
      this.directories := directories;
    }

    /** The files a new listener on `port` finds in its image directory. */
    function Directory(port: int): map<string, seq<byte>>
      reads this
    {
      if port in directories then directories[port] else map[]
    }

    /** `iniciarServidor`: nothing happens when the port already has a
        listener; otherwise a new, active, empty listener is registered, over
        the files its directory already holds. */
    method Start(port: int)
      requires Valid()
      modifies this`servers
      ensures Valid()
      ensures port in old(servers) ==> servers == old(servers)
      ensures port !in old(servers) ==>
        && port in servers && servers == old(servers)[port := servers[port]]
        && fresh(servers[port]) && servers[port].Valid()
        && servers[port].active && servers[port].clients == [] && servers[port].images == Directory(port)
    {
      if port !in servers {
        var listener := new PortListener(port, Directory(port));
        servers := servers[port := listener];
      }
    }

    /** `detenerServidor`: the entry is removed; only when there was one is its
        listener stopped, its files kept for the next listener on the port,
        and a restart scheduled. */
    method Stop(port: int)
      requires Valid()
      modifies this`servers, this`pendingRestarts, this`directories, servers.Values
      ensures Valid()
      ensures servers == old(servers) - {port}
      ensures forall p :: p in servers ==> unchanged(servers[p])
      ensures port in old(servers) ==>
        && !old(servers)[port].active && old(servers)[port].clients == []
        && pendingRestarts == old(pendingRestarts) + [port]
        && directories == old(directories)[port := old(servers[port].images)]
      ensures port !in old(servers) ==> pendingRestarts == old(pendingRestarts) && directories == old(directories)
    {
      if port in servers {
        var listener := servers[port];
        servers := servers - {port};
        listener.Stop();
        directories := directories[port := listener.images];
        pendingRestarts := pendingRestarts + [port];
      }
    }

    /** A scheduled restart fires: the earliest one calls `iniciarServidor`. */
    method FireRestart()
      requires Valid()
      modifies this`servers, this`pendingRestarts
      ensures Valid()
      ensures old(pendingRestarts) == [] ==> servers == old(servers) && pendingRestarts == []
      ensures old(pendingRestarts) != [] ==>
        var p := old(pendingRestarts)[0];
        && pendingRestarts == old(pendingRestarts)[1..]
        && (p in old(servers) ==> servers == old(servers))
        && (p !in old(servers) ==>
              p in servers && fresh(servers[p]) && servers[p].active && servers[p].clients == [] &&
              servers[p].images == Directory(p) && servers == old(servers)[p := servers[p]])
    {
      if pendingRestarts != [] {
        var p := pendingRestarts[0];
        pendingRestarts := pendingRestarts[1..];
        Start(p);
      }
    }
  }
}
