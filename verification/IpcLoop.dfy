/** The IPC server's code: the global server_state, updated in place. */
module IpcLoop {
  import opened Common
  import opened IpcServer

  /** Each round's input is one the environment can give in the state it finds. */
  ghost predicate AllPossible(s: State, inputs: seq<Input>)
    requires Inv(s)
    decreases |inputs|
  {
    inputs == [] || !s.running ||
    (Possible(s, inputs[0]) &&
     (RoundKeepsInv(s, inputs[0]); AllPossible(Round(s, inputs[0]), inputs[1..])))
  }

  /** Rounds while the server runs and there are inputs. */
  ghost function Rounds(s: State, inputs: seq<Input>): State
    requires Inv(s) && AllPossible(s, inputs)
    decreases |inputs|
  {
    if inputs == [] || !s.running then s else
      RoundKeepsInv(s, inputs[0]);
      Rounds(Round(s, inputs[0]), inputs[1..])
  }

  class Server {
    var clients: array<Client>
    var num: int
    var running: bool
    const serverFd: int
    var next: nat  // serial number of the next connection
    ghost var log: seq<Event>

    ghost function View(): State
      reads this, clients
    {
      State(clients[..], num, running, serverFd, next, log)
    }

    ghost predicate Valid()
      reads this, clients
    {
      clients.Length == MAX_CLIENTS && Inv(View())
    }

    constructor (serverFd: int)
      ensures Valid() && fresh(clients) && View() == Listening(serverFd)
    {
      clients := new Client[MAX_CLIENTS](_ => IDLE);
      num, running, this.serverFd, next, log := 0, true, serverFd, 0, [];
      new;
      NobodyAtFirst(MAX_CLIENTS);
      assert clients[..] == Listening(serverFd).clients;
      EveryRunKeepsInv(serverFd, []);
    }

    /** ipc_accept_client, given what accept returned. */
    method AcceptClient(fd: int) returns (r: int)
      requires clients.Length == MAX_CLIENTS
      modifies this`num, this`next, this`log, clients
      ensures View() == Accept(old(View()), fd)
      ensures r == if fd >= 0 && FreeSlot(old(clients[..])) < MAX_CLIENTS then fd else -1
    {
      if fd < 0 {
        return -1;
      }
      var slot := -1;
      var i := 0;
      while i < MAX_CLIENTS
        invariant 0 <= i <= MAX_CLIENTS && slot == -1
        invariant FreeSlot(clients[..]) == FreeSlot(clients[..], i)
      {
        if !clients[i].active {
          slot := i;
          break;
        }
        i := i + 1;
      }
      log := log + [Accepted(next, fd)];
      if slot < 0 {
        log := log + [Closed(next, fd)];
        next := next + 1;
        return -1;
      }
      clients[slot] := Client(fd, next, true);
      num := num + 1;
      next := next + 1;
      return fd;
    }

    /** close(fd) on the client in slot i. */
    method CloseSlot(i: nat)
      requires i < clients.Length
      modifies this`num, this`log, clients
      ensures View() == Close(old(View()), i)
    {
      log := log + [Closed(clients[i].conn, clients[i].fd)];
      clients[i] := clients[i].(active := false);
      num := num - 1;
    }

    /** ipc_disconnect_client. */
    method DisconnectClient(fd: int)
      requires clients.Length == MAX_CLIENTS
      modifies this`num, this`log, clients
      ensures View() == Disconnect(old(View()), fd)
    {
      var i := 0;
      while i < MAX_CLIENTS
        invariant 0 <= i <= MAX_CLIENTS
        invariant View() == old(View())
        invariant SlotOf(clients[..], fd) == SlotOf(clients[..], fd, i)
      {
        if clients[i].active && clients[i].fd == fd {
          CloseSlot(i);
          return;
        }
        i := i + 1;
      }
    }

    /** The set handed to select, with the largest descriptor in it. */
    method Watch() returns (fds: set<int>, maxFd: int)
      requires clients.Length == MAX_CLIENTS
      ensures fds == Watched(View())
      ensures maxFd in fds && forall fd :: fd in fds ==> fd <= maxFd
    {
      fds, maxFd := {serverFd}, serverFd;
      var i := 0;
      while i < MAX_CLIENTS
        invariant 0 <= i <= MAX_CLIENTS
        invariant fds == {serverFd} + Fds(clients[..], i)
        invariant maxFd in fds && forall fd :: fd in fds ==> fd <= maxFd
      {
        if clients[i].active {
          var fd := clients[i].fd;
          fds := fds + {fd};
          if fd > maxFd {
            maxFd := fd;
          }
        }
        i := i + 1;
      }
    }

    /** ipc_handle_request with the dispatch inside it. */
    method HandleRequest(r: Request, uptime: int) returns (resp: Response)
      modifies this`running
      ensures resp == Handle(r, num, uptime)
      ensures running == (old(running) && r.command != Shutdown)
    {
      if r.command == Shutdown {
        running := false;
      }
      var d := Dispatch(r.command, num, uptime);
      if d.0 == Ok {
        var size := |d.1| + 1;
        if size > PAYLOAD {
          size := PAYLOAD;
        }
        resp := Response(r.id, d.0, "", size, (d.1 + ['\0'])[..size]);
      } else {
        resp := Response(r.id, d.0, "Command failed", 0, "");
      }
    }

    /** Read, handle, send and close for one readable client. */
    method ServeSlot(i: nat, inp: Input)
      requires i < clients.Length
      modifies this`num, this`running, this`log, clients
      ensures View() == Close(Reply(old(View()), i, inp), i)
    {
      var c := clients[i];
      if c.fd in inp.requests {
        var resp := HandleRequest(inp.requests[c.fd], inp.uptime);
        log := log + [Received(c.conn, inp.requests[c.fd])] + [Answered(c.conn, resp)];
      }
      assert View() == Reply(old(View()), i, inp);
      CloseSlot(i);
    }

    /** The serving loop. */
    method ServeReady(ready: set<int>, inp: Input)
      requires clients.Length == MAX_CLIENTS
      modifies this`num, this`running, this`log, clients
      ensures View() == Serve(old(View()), ready, inp, 0)
    {
      ghost var want := Serve(View(), ready, inp, 0);
      var i := 0;
      while i < MAX_CLIENTS
        invariant 0 <= i <= MAX_CLIENTS && next == old(next)
        invariant Serve(View(), ready, inp, i) == want
      {
        if clients[i].active && clients[i].fd in ready {
          ServeSlot(i, inp);
        }
        i := i + 1;
      }
    }

    /** One turn of ipc_server_run; maxFd is the bound handed to select, and it covers what select may
        report. */
    method RunRound(inp: Input) returns (maxFd: int)
      requires Valid() && Possible(View(), inp)
      modifies this`num, this`running, this`next, this`log, clients
      ensures Valid() && View() == Round(old(View()), inp)
      ensures maxFd in Watched(old(View())) && forall fd :: fd in Watched(old(View())) ==> fd <= maxFd
      ensures inp.ready.Some? ==> forall fd :: fd in inp.ready.value ==> fd <= maxFd
    {
      RoundKeepsInv(View(), inp);
      var fds;
      fds, maxFd := Watch();
      assert inp.ready.Some? ==> inp.ready.value <= fds;
      if inp.ready.None? {
        return;
      }
      var ready := inp.ready.value;
      if serverFd in ready {
        var _ := AcceptClient(inp.incoming);
      }
      ServeReady(ready, inp);
    }

    /** ipc_server_run, for as long as the environment gives inputs. */
    method Run(inputs: seq<Input>)
      requires Valid() && AllPossible(View(), inputs)
      modifies this`num, this`running, this`next, this`log, clients
      ensures Valid() && View() == Rounds(old(View()), inputs)
    {
      var k := 0;
      while running && k < |inputs|
        invariant 0 <= k <= |inputs| && Valid() && AllPossible(View(), inputs[k..])
        invariant Rounds(View(), inputs[k..]) == Rounds(old(View()), inputs)
      {
        assert inputs[k..][0] == inputs[k] && inputs[k..][1..] == inputs[k + 1..];
        var _ := RunRound(inputs[k]);
        k := k + 1;
      }
    }

    /** ipc_server_cleanup, up to the listening socket. */
    method CleanUp()
      requires Valid()
      modifies this`running, this`log, clients
      ensures !running && View() == CloseAll(old(View()).(running := false), 0)
      ensures Open(log) == {} && forall c: nat :: Closes(log, c) == if c < next then 1 else 0
    {
      running := false;
      ghost var before := View();
      CloseAllClosesAll(before, 0);
      NobodyLeft(CloseAll(before, 0).clients, MAX_CLIENTS);
      var i := 0;
      while i < MAX_CLIENTS
        invariant 0 <= i <= MAX_CLIENTS && !running
        invariant CloseAll(View(), i) == CloseAll(before, 0)
      {
        if clients[i].active {
          log := log + [Closed(clients[i].conn, clients[i].fd)];
          clients[i] := clients[i].(active := false);
        }
        i := i + 1;
      }
    }
  }
}
