/** The daemon's IPC server: a table of 64 clients, a counter kept beside it, and select rounds that
    accept at most one client and then answer and close every readable one.

    Descriptors are reused by the kernel, so each accepted connection has a serial number of its own,
    and what happens to it is recorded in a log. */
module IpcServer {
  import opened Common
  import opened Decimals

  const MAX_CLIENTS := 64
  const PAYLOAD := 8192

  // ---------- one request ----------

  datatype Command = Status | Shutdown | Other
  datatype Request = Request(id: nat, command: Command)
  datatype Code = Ok | InvalidCommand
  datatype Response = Response(requestId: nat, status: Code, errorMsg: string, dataSize: nat, data: string)

  function Signed(n: int): string {
    if n < 0 then "-" + Decimal(-n) else Decimal(n)
  }

  function StatusText(clients: int, uptime: int): string {
    "Running:1 Clients:" + Signed(clients) + " Uptime:" + Signed(uptime)
  }

  /** snprintf into a buffer of the given size. */
  function Printed(s: string, size: nat): string
    requires size > 0
  {
    if |s| < size then s else s[..size - 1]
  }

  /** ipc_dispatch_command: the status, and the text left in the result buffer. */
  function Dispatch(c: Command, clients: int, uptime: int): (Code, string) {
    match c
    case Status => (Ok, Printed(StatusText(clients, uptime), PAYLOAD))
    case Shutdown => (Ok, Printed("Shutting down daemon", PAYLOAD))
    case Other => (InvalidCommand, Printed("Invalid command", PAYLOAD))
  }

  /** ipc_handle_request. */
  function Handle(r: Request, clients: int, uptime: int): Response {
    var (code, text) := Dispatch(r.command, clients, uptime);
    if code == Ok then
      var size := if |text| + 1 > PAYLOAD then PAYLOAD else |text| + 1;
      Response(r.id, code, "", size, (text + ['\0'])[..size])
    else
      Response(r.id, code, "Command failed", 0, "")
  }

  const LONG := 0x8000_0000_0000_0000  // time_t is a signed 64-bit long

  lemma StatusTextIsShort(clients: int, uptime: int)
    requires 0 <= clients <= MAX_CLIENTS && -LONG <= uptime < LONG
    ensures |StatusText(clients, uptime)| < 64
  {
    assert Pow10(2) == 100;
    assert Pow10(4) == 10000;
    assert Pow10(8) == Pow10(4) * Pow10(4);
    assert Pow10(12) == Pow10(8) * 10000;
    assert Pow10(16) == Pow10(12) * 10000;
    assert Pow10(20) == Pow10(16) * 10000;
    DecimalLength(clients, 2);
    DecimalLength(if uptime < 0 then -uptime else uptime, 20);
  }

  /** A number as printed: its digits without leading zeros, after a minus sign if it is negative. */
  predicate Shows(text: string, n: int) {
    if n < 0 then |text| > 1 && text[0] == '-' && ShowsNat(text[1..], -n) else ShowsNat(text, n)
  }

  predicate ShowsNat(text: string, n: nat) {
    text != [] && AllDigits(text) && Value(text) == n && (text[0] == '0' ==> |text| == 1)
  }

  /** The data is a status text with this number of clients. */
  ghost predicate ReportsClients(data: string, clients: int) {
    exists c :: Shows(c, clients) && "Running:1 Clients:" + c + " Uptime:" <= data
  }

  ghost predicate IsStatus(data: string, clients: int, uptime: int) {
    exists c, u :: Shows(c, clients) && Shows(u, uptime) &&
      data == "Running:1 Clients:" + c + " Uptime:" + u + ['\0']
  }

  /** The answer to a request: the whole text and its terminator, or an error message. */
  ghost predicate Replies(r: Request, resp: Response, clients: int, uptime: int) {
    && resp.requestId == r.id && |resp.data| == resp.dataSize <= 8192
    && (r.command == Status ==> resp.status == Ok && resp.errorMsg == "" && ReportsClients(resp.data, clients))
    && (r.command == Status && -LONG <= uptime < LONG ==> IsStatus(resp.data, clients, uptime))
    && (r.command == Shutdown ==> resp.status == Ok && resp.errorMsg == "" && resp.data == "Shutting down daemon" + ['\0'])
    && (r.command == Other ==> resp.status == InvalidCommand && resp.errorMsg == "Command failed" && resp.data == "")
  }

  lemma {:induction false} DecimalShows(n: nat)
    ensures ShowsNat(Decimal(n), n)
    ensures n > 0 ==> Decimal(n)[0] != '0'
  {
    ValueOfDecimal(n);
    if n < 10 {
      assert DigitValue(Digit(n)) == n;
    } else {
      DecimalShows(n / 10);
      assert Decimal(n)[0] == Decimal(n / 10)[0];
    }
  }

  lemma SignedShows(n: int)
    ensures Shows(Signed(n), n)
  {
    DecimalShows(if n < 0 then -n else n);
    if n < 0 {
      assert Signed(n)[1..] == Decimal(-n);
    }
  }

  lemma StatusIsRead(clients: int, uptime: int, size: nat)
    requires 0 <= clients <= 64 && size >= 64
    ensures ReportsClients(Printed(StatusText(clients, uptime), size) + ['\0'], clients)
    ensures IsStatus(StatusText(clients, uptime) + ['\0'], clients, uptime)
  {
    var c, u := Signed(clients), Signed(uptime);
    SignedShows(clients);
    SignedShows(uptime);
    assert |c| <= 2 by {
      assert Pow10(2) == 100;
      DecimalLength(clients, 2);
    }
    var start := "Running:1 Clients:" + c + " Uptime:";
    assert StatusText(clients, uptime) == start + u;
    assert start <= Printed(start + u, size) <= Printed(start + u, size) + ['\0'];
  }

  /** What an answer says: a status answer gives the number of clients and the uptime, each in its place
      and read back as itself. */
  lemma AnswerIsWholeText(r: Request, clients: int, uptime: int)
    requires 0 <= clients <= 64
    ensures Replies(r, Handle(r, clients, uptime), clients, uptime)
  {
    if r.command == Status {
      StatusAnswer(r, clients, uptime);
    }
  }

  lemma StatusAnswer(r: Request, clients: int, uptime: int)
    requires 0 <= clients <= 64 && r.command == Status
    ensures var resp := Handle(r, clients, uptime);
            && ReportsClients(resp.data, clients)
            && (-LONG <= uptime < LONG ==> IsStatus(resp.data, clients, uptime))
  {
    var text := Printed(StatusText(clients, uptime), PAYLOAD);
    StatusIsRead(clients, uptime, PAYLOAD);
    assert Handle(r, clients, uptime).data == text + ['\0'];
    if -LONG <= uptime < LONG {
      StatusTextIsShort(clients, uptime);
    }
  }

  /** What holds of an answer whatever the uptime: it carries the id of its request, and its data ends
      with the terminator within the payload, or there is none and an error message instead. */
  ghost predicate Fits(r: Request, resp: Response) {
    && resp.requestId == r.id
    && (resp.status == Ok <==> r.command != Other)
    && |resp.data| == resp.dataSize <= PAYLOAD
    && (resp.status == Ok ==> resp.dataSize > 0 && resp.data[resp.dataSize - 1] == '\0' && resp.errorMsg == "")
    && (resp.status != Ok ==> resp.dataSize == 0 && resp.errorMsg == "Command failed")
  }

  lemma HandleFits(r: Request, clients: int, uptime: int)
    ensures Fits(r, Handle(r, clients, uptime))
  {
  }

  // ---------- the table ----------

  datatype Client = Client(fd: int, conn: nat, active: bool)

  const IDLE := Client(0, 0, false)

  function Fds(cs: seq<Client>, n: nat): set<int>
    requires n <= |cs|
  {
    if n == 0 then {} else Fds(cs, n - 1) + if cs[n - 1].active then {cs[n - 1].fd} else {}
  }

  function Conns(cs: seq<Client>, n: nat): set<nat>
    requires n <= |cs|
  {
    if n == 0 then {} else Conns(cs, n - 1) + if cs[n - 1].active then {cs[n - 1].conn} else {}
  }

  function Count(cs: seq<Client>, n: nat): nat
    requires n <= |cs|
  {
    if n == 0 then 0 else Count(cs, n - 1) + if cs[n - 1].active then 1 else 0
  }

  function FreeSlot(cs: seq<Client>, from: nat := 0): (i: nat)
    requires from <= |cs|
    ensures from <= i <= |cs|
    ensures i < |cs| ==> !cs[i].active
    ensures forall j :: from <= j < i ==> cs[j].active
    decreases |cs| - from
  {
    if from == |cs| || !cs[from].active then from else FreeSlot(cs, from + 1)
  }

  function SlotOf(cs: seq<Client>, fd: int, from: nat := 0): (i: nat)
    requires from <= |cs|
    ensures from <= i <= |cs|
    ensures i < |cs| ==> cs[i].active && cs[i].fd == fd
    ensures forall j :: from <= j < i ==> !(cs[j].active && cs[j].fd == fd)
    decreases |cs| - from
  {
    if from == |cs| || (cs[from].active && cs[from].fd == fd) then from else SlotOf(cs, fd, from + 1)
  }

  // ---------- the server and its log ----------

  datatype Event =
    | Accepted(conn: nat, fd: int)
    | Received(conn: nat, r: Request)
    | Answered(conn: nat, resp: Response)
    | Closed(conn: nat, fd: int)

  datatype State = State(clients: seq<Client>, num: int, running: bool, serverFd: int,
                         next: nat, log: seq<Event>)

  /** The descriptors that the log says are open. */
  function Open(log: seq<Event>): set<int> {
    if log == [] then {} else OpenAfter(Open(log[..|log| - 1]), log[|log| - 1])
  }

  function OpenAfter(fds: set<int>, e: Event): set<int> {
    if e.Accepted? then fds + {e.fd} else if e.Closed? then fds - {e.fd} else fds
  }

  function Closes(log: seq<Event>, conn: nat): nat {
    if log == [] then 0
    else Closes(log[..|log| - 1], conn) +
         if log[|log| - 1].Closed? && log[|log| - 1].conn == conn then 1 else 0
  }

  function Answers(log: seq<Event>, conn: nat): nat {
    if log == [] then 0
    else Answers(log[..|log| - 1], conn) +
         if log[|log| - 1].Answered? && log[|log| - 1].conn == conn then 1 else 0
  }

  /** What the environment does in one round. */
  datatype Input = Input(
    ready: Option<set<int>>,    // None when select timed out or failed
    incoming: int,              // what accept returned, negative on failure
    requests: map<int, Request>,  // descriptors from which a whole request could be read
    uptime: int)

  function Accept(s: State, fd: int): State
    requires |s.clients| == MAX_CLIENTS
  {
    if fd < 0 then s else
      var i := FreeSlot(s.clients);
      if i == MAX_CLIENTS
      then s.(next := s.next + 1, log := s.log + [Accepted(s.next, fd)] + [Closed(s.next, fd)])
      else s.(clients := s.clients[i := Client(fd, s.next, true)], num := s.num + 1,
              next := s.next + 1, log := s.log + [Accepted(s.next, fd)])
  }

  /** Read, handle and send for the client in slot i. */
  function Reply(s: State, i: nat, inp: Input): State
    requires i < |s.clients|
  {
    var c := s.clients[i];
    if c.fd !in inp.requests then s else
      var r := inp.requests[c.fd];
      s.(running := s.running && r.command != Shutdown,
         log := s.log + [Received(c.conn, r)] + [Answered(c.conn, Handle(r, s.num, inp.uptime))])
  }

  function Close(s: State, i: nat): State
    requires i < |s.clients|
  {
    var c := s.clients[i];
    s.(clients := s.clients[i := c.(active := false)], num := s.num - 1, log := s.log + [Closed(c.conn, c.fd)])
  }

  /** The serving loop from slot i on. */
  function Serve(s: State, ready: set<int>, inp: Input, i: nat): State
    requires |s.clients| == MAX_CLIENTS && i <= MAX_CLIENTS
    decreases MAX_CLIENTS - i
  {
    if i == MAX_CLIENTS then s
    else if s.clients[i].active && s.clients[i].fd in ready
    then Serve(Close(Reply(s, i, inp), i), ready, inp, i + 1)
    else Serve(s, ready, inp, i + 1)
  }

  function Watched(s: State): set<int> {
    {s.serverFd} + Fds(s.clients, |s.clients|)
  }

  /** The table and counter the serving loop starts from. */
  function Admitted(s: State, inp: Input): State
    requires |s.clients| == MAX_CLIENTS
  {
    if inp.ready.Some? && s.serverFd in inp.ready.value then Accept(s, inp.incoming) else s
  }

  /** One turn of the loop of ipc_server_run. */
  function Round(s: State, inp: Input): State
    requires |s.clients| == MAX_CLIENTS
  {
    match inp.ready
    case None => s
    case Some(ready) => Serve(Admitted(s, inp), ready, inp, 0)
  }

  function Disconnect(s: State, fd: int): State {
    var i := SlotOf(s.clients, fd);
    if i < |s.clients| then Close(s, i) else s
  }

  /** select reports watched descriptors only; accept returns a descriptor that is not open. */
  predicate Possible(s: State, inp: Input) {
    inp.ready.Some? ==>
      && inp.ready.value <= Watched(s)
      && (s.serverFd in inp.ready.value && inp.incoming >= 0 ==>
            inp.incoming != s.serverFd && inp.incoming !in Open(s.log))
  }

  // ---------- invariants ----------

  ghost predicate Separate(cs: seq<Client>) {
    forall i, j :: 0 <= i < j < |cs| && cs[i].active && cs[j].active ==>
      cs[i].fd != cs[j].fd && cs[i].conn != cs[j].conn
  }

  ghost predicate Table(s: State) {
    && |s.clients| == MAX_CLIENTS
    && Separate(s.clients)
    && s.serverFd !in Fds(s.clients, MAX_CLIENTS)
    && Open(s.log) == Fds(s.clients, MAX_CLIENTS)
    && (forall i :: 0 <= i < MAX_CLIENTS && s.clients[i].active ==> s.clients[i].conn < s.next)
  }

  /** Each connection so far: still open and not answered, or closed once and answered at most once. */
  ghost predicate OnceEach(s: State)
    requires |s.clients| == MAX_CLIENTS
  {
    forall c: nat ::
      if c >= s.next || c in Conns(s.clients, MAX_CLIENTS)
      then Closes(s.log, c) == 0 && Answers(s.log, c) == 0
      else Closes(s.log, c) == 1 && Answers(s.log, c) <= 1
  }

  /** An answer follows the request it answers, on the same connection, and a status answer gives the
      number of descriptors open when it was sent. */
  ghost predicate Matched(log: seq<Event>) {
    forall k :: 0 <= k < |log| && log[k].Answered? ==> MatchedAt(log, k)
  }

  ghost predicate MatchedAt(log: seq<Event>, k: nat)
    requires k < |log| && log[k].Answered?
  {
    && k > 0 && log[k - 1].Received? && log[k - 1].conn == log[k].conn && Fits(log[k - 1].r, log[k].resp)
    && (log[k - 1].r.command == Status ==> ReportsClients(log[k].resp.data, |Open(log[..k])|))
  }

  ghost predicate Tracked(s: State) {
    Table(s) && OnceEach(s) && Matched(s.log)
  }

  ghost predicate Inv(s: State) {
    Tracked(s) && s.num == Count(s.clients, MAX_CLIENTS)
  }

  // ---------- the table, one slot changed ----------

  lemma {:induction false} FdHasSlot(cs: seq<Client>, n: nat, fd: int) returns (i: nat)
    requires n <= |cs| && fd in Fds(cs, n)
    ensures i < n && cs[i].active && cs[i].fd == fd
  {
    if cs[n - 1].active && cs[n - 1].fd == fd {
      i := n - 1;
    } else {
      i := FdHasSlot(cs, n - 1, fd);
    }
  }

  lemma {:induction false} ConnHasSlot(cs: seq<Client>, n: nat, c: nat) returns (i: nat)
    requires n <= |cs| && c in Conns(cs, n)
    ensures i < n && cs[i].active && cs[i].conn == c
  {
    if cs[n - 1].active && cs[n - 1].conn == c {
      i := n - 1;
    } else {
      i := ConnHasSlot(cs, n - 1, c);
    }
  }

  lemma {:induction false} SlotHasFd(cs: seq<Client>, n: nat, i: nat)
    requires i < n <= |cs| && cs[i].active
    ensures cs[i].fd in Fds(cs, n) && cs[i].conn in Conns(cs, n)
  {
    if i == n - 1 {
    } else {
      SlotHasFd(cs, n - 1, i);
    }
  }

  lemma {:induction false} Activate(cs: seq<Client>, i: nat, c: Client, n: nat)
    requires i < |cs| && n <= |cs| && !cs[i].active && c.active
    ensures Fds(cs[i := c], n) == Fds(cs, n) + if i < n then {c.fd} else {}
    ensures Conns(cs[i := c], n) == Conns(cs, n) + if i < n then {c.conn} else {}
    ensures Count(cs[i := c], n) == Count(cs, n) + if i < n then 1 else 0
  {
    if n == 0 {
    } else {
      Activate(cs, i, c, n - 1);
    }
  }

  lemma NotBelow(cs: seq<Client>, i: nat)
    requires i < |cs| && cs[i].active && Separate(cs)
    ensures cs[i].fd !in Fds(cs, i) && cs[i].conn !in Conns(cs, i)
  {
    if cs[i].fd in Fds(cs, i) {
      var j := FdHasSlot(cs, i, cs[i].fd);
    }
    if cs[i].conn in Conns(cs, i) {
      var j := ConnHasSlot(cs, i, cs[i].conn);
    }
  }

  lemma {:induction false} Deactivate(cs: seq<Client>, i: nat, n: nat)
    requires i < |cs| && n <= |cs| && cs[i].active && Separate(cs)
    ensures var cs' := cs[i := cs[i].(active := false)];
            && Fds(cs', n) == Fds(cs, n) - (if i < n then {cs[i].fd} else {})
            && Conns(cs', n) == Conns(cs, n) - (if i < n then {cs[i].conn} else {})
            && Count(cs', n) == Count(cs, n) - (if i < n then 1 else 0)
  {
    if n == 0 {
    } else {
      Deactivate(cs, i, n - 1);
      if n - 1 == i {
        NotBelow(cs, i);
      } else if i < n - 1 && cs[n - 1].active {
        assert cs[n - 1].fd != cs[i].fd && cs[n - 1].conn != cs[i].conn;
      }
    }
  }

  lemma {:induction false} CountOfAll(cs: seq<Client>, n: nat)
    requires n <= |cs|
    ensures Count(cs, n) <= n
    ensures Count(cs, n) == n <==> forall i :: 0 <= i < n ==> cs[i].active
  {
    if n == 0 {
    } else {
      CountOfAll(cs, n - 1);
    }
  }

  lemma {:induction false} CountIsSize(cs: seq<Client>, n: nat)
    requires n <= |cs| && Separate(cs)
    ensures |Fds(cs, n)| == Count(cs, n)
  {
    if n == 0 {
    } else {
      CountIsSize(cs, n - 1);
      var below := Fds(cs, n - 1);
      if cs[n - 1].active {
        NotBelow(cs, n - 1);
        assert |below + {cs[n - 1].fd}| == |below| + 1;
      }
    }
  }

  lemma LogGrows(log: seq<Event>, e: Event)
    ensures Open(log + [e]) == OpenAfter(Open(log), e)
    ensures forall c :: Closes(log + [e], c) == Closes(log, c) + if e.Closed? && e.conn == c then 1 else 0
    ensures forall c :: Answers(log + [e], c) == Answers(log, c) + if e.Answered? && e.conn == c then 1 else 0
  {
    assert (log + [e])[..|log|] == log;
  }

  lemma MatchedGrows(log: seq<Event>, e: Event)
    requires Matched(log) && !e.Answered?
    ensures Matched(log + [e])
  {
    forall k | 0 <= k < |log + [e]| && (log + [e])[k].Answered?
      ensures MatchedAt(log + [e], k)
    {
      assert MatchedAt(log, k) && (log + [e])[..k] == log[..k];
    }
  }

  lemma MatchedAnswer(log: seq<Event>, c: nat, r: Request, resp: Response)
    requires Matched(log) && Fits(r, resp)
    requires r.command == Status ==> ReportsClients(resp.data, |Open(log)|)
    ensures Matched(log + [Received(c, r)] + [Answered(c, resp)])
  {
    var before := log + [Received(c, r)];
    var all := before + [Answered(c, resp)];
    MatchedGrows(log, Received(c, r));
    LogGrows(log, Received(c, r));
    assert all[..|before|] == before;
    forall k | 0 <= k < |all| && all[k].Answered?
      ensures MatchedAt(all, k)
    {
      if k < |before| {
        assert MatchedAt(before, k) && all[..k] == before[..k];
      }
    }
  }

  // ---------- each action keeps the invariant ----------

  lemma AcceptRefusedKeepsInv(s: State, fd: int)
    requires Inv(s) && fd >= 0 && fd !in Open(s.log) && FreeSlot(s.clients) == MAX_CLIENTS
    ensures Inv(Accept(s, fd))
  {
    LogGrows(s.log, Accepted(s.next, fd));
    LogGrows(s.log + [Accepted(s.next, fd)], Closed(s.next, fd));
    MatchedGrows(s.log, Accepted(s.next, fd));
    MatchedGrows(s.log + [Accepted(s.next, fd)], Closed(s.next, fd));
    NewConnIsNew(s);
  }

  lemma NewConnIsNew(s: State)
    requires Table(s)
    ensures s.next !in Conns(s.clients, MAX_CLIENTS)
  {
    if s.next in Conns(s.clients, MAX_CLIENTS) {
      var i := ConnHasSlot(s.clients, MAX_CLIENTS, s.next);
    }
  }

  lemma AcceptedIsSeparate(s: State, fd: int)
    requires Table(s) && fd !in Open(s.log) && FreeSlot(s.clients) < MAX_CLIENTS
    ensures Separate(s.clients[FreeSlot(s.clients) := Client(fd, s.next, true)])
  {
    var cs := s.clients[FreeSlot(s.clients) := Client(fd, s.next, true)];
    forall i | 0 <= i < |cs| && i != FreeSlot(s.clients) && cs[i].active
      ensures cs[i].fd != fd && cs[i].conn != s.next
    {
      SlotHasFd(s.clients, MAX_CLIENTS, i);
    }
  }

  lemma AcceptTakenKeepsInv(s: State, fd: int)
    requires Inv(s) && fd >= 0 && fd !in Open(s.log) && fd != s.serverFd && FreeSlot(s.clients) < MAX_CLIENTS
    ensures Inv(Accept(s, fd))
  {
    LogGrows(s.log, Accepted(s.next, fd));
    MatchedGrows(s.log, Accepted(s.next, fd));
    Activate(s.clients, FreeSlot(s.clients), Client(fd, s.next, true), MAX_CLIENTS);
    AcceptedIsSeparate(s, fd);
  }

  lemma AcceptKeepsInv(s: State, fd: int)
    requires Inv(s) && (fd >= 0 ==> fd !in Open(s.log) && fd != s.serverFd)
    ensures Inv(Accept(s, fd))
  {
    if fd >= 0 {
      if FreeSlot(s.clients) < MAX_CLIENTS {
        AcceptTakenKeepsInv(s, fd);
      } else {
        AcceptRefusedKeepsInv(s, fd);
      }
    }
  }

  /** Between answering and closing, the connection in slot i may have its one answer. */
  ghost predicate OnceEachBut(s: State, i: nat)
    requires |s.clients| == MAX_CLIENTS && i < MAX_CLIENTS
  {
    forall c: nat ::
      if c == s.clients[i].conn then Closes(s.log, c) == 0 && Answers(s.log, c) <= 1
      else if c >= s.next || c in Conns(s.clients, MAX_CLIENTS)
      then Closes(s.log, c) == 0 && Answers(s.log, c) == 0
      else Closes(s.log, c) == 1 && Answers(s.log, c) <= 1
  }

  /** The counter is the number of open descriptors. */
  lemma NumIsOpen(s: State)
    requires Inv(s)
    ensures s.num == |Open(s.log)| == |Fds(s.clients, MAX_CLIENTS)| && 0 <= s.num <= 64
  {
    CountIsSize(s.clients, MAX_CLIENTS);
    CountOfAll(s.clients, MAX_CLIENTS);
  }

  lemma ReplyKeeps(s: State, i: nat, inp: Input)
    requires Inv(s) && i < MAX_CLIENTS && s.clients[i].active
    ensures var s' := Reply(s, i, inp);
            Table(s') && OnceEachBut(s', i) && Matched(s'.log)
  {
    var c := s.clients[i];
    SlotHasFd(s.clients, MAX_CLIENTS, i);
    if c.fd in inp.requests {
      var r := inp.requests[c.fd];
      var resp := Handle(r, s.num, inp.uptime);
      LogGrows(s.log, Received(c.conn, r));
      LogGrows(s.log + [Received(c.conn, r)], Answered(c.conn, resp));
    }
    ReplyIsMatched(s, i, inp);
  }

  lemma ReplyIsMatched(s: State, i: nat, inp: Input)
    requires Inv(s) && i < MAX_CLIENTS
    ensures Matched(Reply(s, i, inp).log)
  {
    var c := s.clients[i];
    if c.fd in inp.requests {
      var r := inp.requests[c.fd];
      HandleFits(r, s.num, inp.uptime);
      NumIsOpen(s);
      AnswerIsWholeText(r, s.num, inp.uptime);
      MatchedAnswer(s.log, c.conn, r, Handle(r, s.num, inp.uptime));
    }
  }

  lemma CloseKeepsTable(s: State, i: nat)
    requires i < MAX_CLIENTS && Table(s) && s.clients[i].active
    ensures Table(Close(s, i))
  {
    Deactivate(s.clients, i, MAX_CLIENTS);
    LogGrows(s.log, Closed(s.clients[i].conn, s.clients[i].fd));
  }

  lemma CloseKeepsTracked(s: State, i: nat)
    requires i < MAX_CLIENTS && Table(s) && OnceEachBut(s, i) && Matched(s.log) && s.clients[i].active
    ensures Tracked(Close(s, i))
    ensures Count(Close(s, i).clients, MAX_CLIENTS) == Count(s.clients, MAX_CLIENTS) - 1
  {
    CloseKeepsTable(s, i);
    Deactivate(s.clients, i, MAX_CLIENTS);
    LogGrows(s.log, Closed(s.clients[i].conn, s.clients[i].fd));
    MatchedGrows(s.log, Closed(s.clients[i].conn, s.clients[i].fd));
  }

  lemma ServeOneKeepsInv(s: State, i: nat, inp: Input)
    requires Inv(s) && i < MAX_CLIENTS && s.clients[i].active
    ensures Inv(Close(Reply(s, i, inp), i))
  {
    ReplyKeeps(s, i, inp);
    CloseKeepsTracked(Reply(s, i, inp), i);
  }

  lemma {:induction false} ServeKeepsInv(s: State, ready: set<int>, inp: Input, i: nat)
    requires Inv(s) && i <= MAX_CLIENTS
    ensures Inv(Serve(s, ready, inp, i))
    decreases MAX_CLIENTS - i
  {
    if i == MAX_CLIENTS {
    } else {
      if s.clients[i].active && s.clients[i].fd in ready {
        ServeOneKeepsInv(s, i, inp);
        ServeKeepsInv(Close(Reply(s, i, inp), i), ready, inp, i + 1);
      } else {
        ServeKeepsInv(s, ready, inp, i + 1);
      }
    }
  }

  lemma RoundKeepsInv(s: State, inp: Input)
    requires Inv(s) && Possible(s, inp)
    ensures Inv(Round(s, inp))
  {
    if inp.ready.Some? {
      var ready := inp.ready.value;
      if s.serverFd in ready {
        AcceptKeepsInv(s, inp.incoming);
        ServeKeepsInv(Accept(s, inp.incoming), ready, inp, 0);
      } else {
        ServeKeepsInv(s, ready, inp, 0);
      }
    }
  }

  lemma DisconnectKeepsInv(s: State, fd: int)
    requires Inv(s)
    ensures Inv(Disconnect(s, fd))
  {
    var i := SlotOf(s.clients, fd);
    if i < MAX_CLIENTS {
      SlotHasFd(s.clients, MAX_CLIENTS, i);
      CloseKeepsTracked(s, i);
    }
  }

  lemma DisconnectSets(s: State, fd: int)
    requires Inv(s)
    ensures var s' := Disconnect(s, fd);
            && |s'.clients| == 64 && Fds(s'.clients, 64) == Fds(s.clients, 64) - {fd}
            && s'.running == s.running && s'.next == s.next
            && (fd !in Fds(s.clients, 64) ==> s' == s)
  {
    var i := SlotOf(s.clients, fd);
    if i < MAX_CLIENTS {
      SlotHasFd(s.clients, MAX_CLIENTS, i);
      Deactivate(s.clients, i, MAX_CLIENTS);
    } else if fd in Fds(s.clients, MAX_CLIENTS) {
      var j := FdHasSlot(s.clients, MAX_CLIENTS, fd);
    }
  }

  lemma DisconnectLogs(s: State, fd: int, j: nat)
    requires Inv(s) && j < MAX_CLIENTS && s.clients[j].active
    ensures Closes(Disconnect(s, fd).log, s.clients[j].conn) == if s.clients[j].fd == fd then 1 else 0
  {
    var i := SlotOf(s.clients, fd);
    SlotHasFd(s.clients, MAX_CLIENTS, j);
    if i < MAX_CLIENTS {
      LogGrows(s.log, Closed(s.clients[i].conn, fd));
    }
  }

  /** A disconnection takes exactly the descriptor out of the active set and closes its connection, once;
      one that is not active changes nothing. */
  lemma DisconnectCloses(s: State, fd: int)
    requires Inv(s)
    ensures var s' := Disconnect(s, fd);
            && |s'.clients| == 64 && Fds(s'.clients, 64) == Fds(s.clients, 64) - {fd} == Open(s'.log)
            && s'.num == |Fds(s'.clients, 64)| && s'.running == s.running && s'.next == s.next
            && (fd !in Fds(s.clients, 64) ==> s' == s)
    ensures forall j :: 0 <= j < 64 && s.clients[j].active ==>
              Closes(Disconnect(s, fd).log, s.clients[j].conn) == if s.clients[j].fd == fd then 1 else 0
  {
    DisconnectKeepsInv(s, fd);
    NumIsOpen(Disconnect(s, fd));
    DisconnectSets(s, fd);
    forall j | 0 <= j < 64 && s.clients[j].active
      ensures Closes(Disconnect(s, fd).log, s.clients[j].conn) == if s.clients[j].fd == fd then 1 else 0
    {
      DisconnectLogs(s, fd, j);
    }
  }

  // ---------- what one round does ----------

  /** The descriptors select reported; none when it timed out or failed. */
  function Ready(inp: Input): set<int> {
    if inp.ready.Some? then inp.ready.value else {}
  }

  lemma ServedFds(s: State, i: nat, inp: Input)
    requires Inv(s) && i < MAX_CLIENTS && s.clients[i].active
    ensures var s' := Close(Reply(s, i, inp), i);
            && Fds(s'.clients, MAX_CLIENTS) == Fds(s.clients, MAX_CLIENTS) - {s.clients[i].fd}
            && s'.clients == s.clients[i := s.clients[i].(active := false)]
            && s'.num == s.num - 1 && s'.next == s.next && s'.serverFd == s.serverFd
  {
    Deactivate(s.clients, i, MAX_CLIENTS);
  }

  lemma {:induction false} NoneReadyBelow(cs: seq<Client>, ready: set<int>, n: nat)
    requires n <= |cs| && forall j :: 0 <= j < n && cs[j].active ==> cs[j].fd !in ready
    ensures Fds(cs, n) !! ready
  {
    if n == 0 {
    } else {
      NoneReadyBelow(cs, ready, n - 1);
    }
  }

  lemma {:induction false} ServeClosesReady(s: State, ready: set<int>, inp: Input, i: nat)
    requires Inv(s) && i <= MAX_CLIENTS
    requires forall j :: 0 <= j < i && s.clients[j].active ==> s.clients[j].fd !in ready
    ensures var s' := Serve(s, ready, inp, i);
            && |s'.clients| == MAX_CLIENTS
            && Fds(s'.clients, MAX_CLIENTS) == Fds(s.clients, MAX_CLIENTS) - ready
            && s'.next == s.next
    decreases MAX_CLIENTS - i
  {
    if i == MAX_CLIENTS {
      NoneReadyBelow(s.clients, ready, MAX_CLIENTS);
    } else if s.clients[i].active && s.clients[i].fd in ready {
      ServeOneKeepsInv(s, i, inp);
      ServedFds(s, i, inp);
      ServeClosesReady(Close(Reply(s, i, inp), i), ready, inp, i + 1);
    } else {
      ServeClosesReady(s, ready, inp, i + 1);
    }
  }

  /** The client a round lets in, if any. */
  function Newcomer(s: State, inp: Input): set<int> {
    if inp.ready.Some? && s.serverFd in inp.ready.value && inp.incoming >= 0 &&
       |Fds(s.clients, |s.clients|)| < 64
    then {inp.incoming} else {}
  }

  lemma AcceptAddsNewcomer(s: State, fd: int)
    requires Inv(s) && fd >= 0
    ensures FreeSlot(s.clients) < MAX_CLIENTS <==> |Fds(s.clients, MAX_CLIENTS)| < MAX_CLIENTS
    ensures Fds(Accept(s, fd).clients, MAX_CLIENTS) ==
            Fds(s.clients, MAX_CLIENTS) + if |Fds(s.clients, MAX_CLIENTS)| < MAX_CLIENTS then {fd} else {}
  {
    CountIsSize(s.clients, MAX_CLIENTS);
    CountOfAll(s.clients, MAX_CLIENTS);
    var i := FreeSlot(s.clients);
    if i < MAX_CLIENTS {
      Activate(s.clients, i, Client(fd, s.next, true), MAX_CLIENTS);
    }
  }

  /** One round as an equation on the set of active descriptors; the newcomer survives its round, and a
      round without a report changes nothing. */
  lemma RoundSets(s: State, inp: Input)
    requires Inv(s) && Possible(s, inp)
    ensures var s' := Round(s, inp);
            && |s'.clients| == 64 && s'.num == |Fds(s'.clients, 64)|
            && Fds(s'.clients, 64) == Fds(s.clients, 64) + Newcomer(s, inp) - Ready(inp)
            && Newcomer(s, inp) <= Fds(s'.clients, 64)
            && (inp.ready.None? ==> s'.log == s.log && s'.running == s.running && s'.next == s.next)
  {
    RoundKeepsInv(s, inp);
    NumIsOpen(Round(s, inp));
    if inp.ready.Some? {
      ReportedRoundSets(s, inp);
    }
  }

  lemma ReportedRoundSets(s: State, inp: Input)
    requires Inv(s) && Possible(s, inp) && inp.ready.Some?
    ensures var s' := Round(s, inp);
            && |s'.clients| == 64
            && Fds(s'.clients, 64) == Fds(s.clients, 64) + Newcomer(s, inp) - inp.ready.value
            && Newcomer(s, inp) <= Fds(s'.clients, 64)
  {
    var ready := inp.ready.value;
    if s.serverFd in ready {
      AcceptKeepsInv(s, inp.incoming);
      if inp.incoming >= 0 {
        AcceptAddsNewcomer(s, inp.incoming);
      }
      ServeClosesReady(Accept(s, inp.incoming), ready, inp, 0);
    } else {
      ServeClosesReady(s, ready, inp, 0);
    }
  }

  lemma {:induction false} ServeExtendsLog(s: State, ready: set<int>, inp: Input, i: nat)
    requires |s.clients| == MAX_CLIENTS && i <= MAX_CLIENTS
    ensures s.log <= Serve(s, ready, inp, i).log
    decreases MAX_CLIENTS - i
  {
    if i == MAX_CLIENTS {
    } else {
      if s.clients[i].active && s.clients[i].fd in ready {
        var s' := Close(Reply(s, i, inp), i);
        assert s.log <= s'.log;
        ServeExtendsLog(s', ready, inp, i + 1);
      } else {
        ServeExtendsLog(s, ready, inp, i + 1);
      }
    }
  }

  /** Active ready clients in the slots from a up to b. */
  function ReadyIn(cs: seq<Client>, ready: set<int>, a: nat, b: nat): nat
    requires a <= b <= |cs|
    decreases b - a
  {
    if a == b then 0
    else ReadyIn(cs, ready, a + 1, b) + if cs[a].active && cs[a].fd in ready then 1 else 0
  }

  lemma {:induction false} ReadyInSame(cs: seq<Client>, ds: seq<Client>, ready: set<int>, a: nat, b: nat)
    requires a <= b <= |cs| == |ds| && forall j :: a <= j < b ==> cs[j] == ds[j]
    ensures ReadyIn(cs, ready, a, b) == ReadyIn(ds, ready, a, b)
    decreases b - a
  {
    if a >= b {
    } else {
      ReadyInSame(cs, ds, ready, a + 1, b);
    }
  }

  lemma ReplyIsLogged(s: State, ready: set<int>, inp: Input, i: nat)
    requires |s.clients| == MAX_CLIENTS && i < MAX_CLIENTS
    requires s.clients[i].active && s.clients[i].fd in ready && s.clients[i].fd in inp.requests
    ensures Answered(s.clients[i].conn, Handle(inp.requests[s.clients[i].fd], s.num, inp.uptime))
            in Serve(s, ready, inp, i).log
  {
    var s' := Close(Reply(s, i, inp), i);
    var e := Answered(s.clients[i].conn, Handle(inp.requests[s.clients[i].fd], s.num, inp.uptime));
    ServeExtendsLog(s', ready, inp, i + 1);
    assert s'.log[|s.log| + 1] == e;
    assert Serve(s, ready, inp, i).log[|s.log| + 1] == e;
  }

  lemma {:induction false} ServeReports(s: State, ready: set<int>, inp: Input, a: nat, i: nat, n: int)
    requires |s.clients| == MAX_CLIENTS && a <= i < MAX_CLIENTS
    requires s.clients[i].active && s.clients[i].fd in ready && s.clients[i].fd in inp.requests
    requires n == s.num - ReadyIn(s.clients, ready, a, i)
    ensures Answered(s.clients[i].conn, Handle(inp.requests[s.clients[i].fd], n, inp.uptime))
            in Serve(s, ready, inp, a).log
    decreases i - a
  {
    if a == i {
      ReplyIsLogged(s, ready, inp, i);
    } else if s.clients[a].active && s.clients[a].fd in ready {
      var s' := Close(Reply(s, a, inp), a);
      ReadyInSame(s.clients, s'.clients, ready, a + 1, i);
      ServeReports(s', ready, inp, a + 1, i, n);
    } else {
      ServeReports(s, ready, inp, a + 1, i, n);
    }
  }

  /** Some readable client from slot a on asks for shutdown. */
  predicate AsksShutdown(cs: seq<Client>, ready: set<int>, inp: Input, a: nat) {
    exists i :: a <= i < |cs| && cs[i].active && cs[i].fd in ready && cs[i].fd in inp.requests &&
      inp.requests[cs[i].fd].command == Shutdown
  }

  lemma {:induction false} ServeRunning(s: State, ready: set<int>, inp: Input, a: nat)
    requires |s.clients| == MAX_CLIENTS && a <= MAX_CLIENTS
    ensures Serve(s, ready, inp, a).running <==> s.running && !AsksShutdown(s.clients, ready, inp, a)
    decreases MAX_CLIENTS - a
  {
    if a == MAX_CLIENTS {
    } else {
      if s.clients[a].active && s.clients[a].fd in ready {
        var s' := Close(Reply(s, a, inp), a);
        ServeRunning(s', ready, inp, a + 1);
        assert forall j :: a < j < MAX_CLIENTS ==> s'.clients[j] == s.clients[j];
      } else {
        ServeRunning(s, ready, inp, a + 1);
      }
    }
  }

  lemma {:induction false} ReadyInUnready(cs: seq<Client>, ready: set<int>, k: nat, c: Client, a: nat, b: nat)
    requires a <= b <= |cs| && k < |cs| && !cs[k].active && c.fd !in ready
    ensures ReadyIn(cs[k := c], ready, a, b) == ReadyIn(cs, ready, a, b)
    decreases b - a
  {
    if a >= b {
    } else {
      ReadyInUnready(cs, ready, k, c, a + 1, b);
    }
  }

  lemma AdmittedKeepsReady(s: State, inp: Input, i: nat)
    requires |s.clients| == MAX_CLIENTS && inp.ready.Some? && i <= MAX_CLIENTS
    requires s.serverFd in inp.ready.value && inp.incoming >= 0 ==> inp.incoming !in inp.ready.value
    ensures |Admitted(s, inp).clients| == MAX_CLIENTS
    ensures ReadyIn(Admitted(s, inp).clients, inp.ready.value, 0, i) == ReadyIn(s.clients, inp.ready.value, 0, i)
  {
    var k := FreeSlot(s.clients);
    if s.serverFd in inp.ready.value && inp.incoming >= 0 && k < MAX_CLIENTS {
      ReadyInUnready(s.clients, inp.ready.value, k, Client(inp.incoming, s.next, true), 0, i);
    }
  }

  lemma AdmittedKeepsClients(s: State, inp: Input, i: nat)
    requires Inv(s) && Possible(s, inp) && inp.ready.Some? && i < MAX_CLIENTS && s.clients[i].active
    ensures var m := Admitted(s, inp);
            && Inv(m) && m.clients[i] == s.clients[i] && m.num == s.num + |Newcomer(s, inp)|
            && ReadyIn(m.clients, inp.ready.value, 0, i) == ReadyIn(s.clients, inp.ready.value, 0, i)
  {
    AdmittedKeepsReady(s, inp, i);
    if s.serverFd in inp.ready.value && inp.incoming >= 0 {
      AcceptKeepsInv(s, inp.incoming);
      AcceptAddsNewcomer(s, inp.incoming);
    }
  }

  /** Serving only ever clears active flags. */
  lemma {:induction false} ServeKeepsConns(s: State, ready: set<int>, inp: Input, a: nat)
    requires |s.clients| == MAX_CLIENTS && a <= MAX_CLIENTS
    ensures var s' := Serve(s, ready, inp, a);
            && |s'.clients| == MAX_CLIENTS
            && forall j :: 0 <= j < MAX_CLIENTS && s'.clients[j].active ==> s'.clients[j] == s.clients[j]
    decreases MAX_CLIENTS - a
  {
    if a == MAX_CLIENTS {
    } else {
      if s.clients[a].active && s.clients[a].fd in ready {
        ServeKeepsConns(Close(Reply(s, a, inp), a), ready, inp, a + 1);
      } else {
        ServeKeepsConns(s, ready, inp, a + 1);
      }
    }
  }

  /** A client found readable is closed in that round. */
  lemma RoundClosesReady(s: State, inp: Input, i: nat)
    requires Inv(s) && Possible(s, inp) && inp.ready.Some? && i < MAX_CLIENTS
    requires s.clients[i].active && s.clients[i].fd in inp.ready.value
    ensures Closes(s.log, s.clients[i].conn) == 0
    ensures Closes(Round(s, inp).log, s.clients[i].conn) == 1
  {
    var c, s' := s.clients[i], Round(s, inp);
    SlotHasFd(s.clients, MAX_CLIENTS, i);
    AdmittedKeepsClients(s, inp, i);
    ServeKeepsInv(Admitted(s, inp), inp.ready.value, inp, 0);
    ServeKeepsConns(Admitted(s, inp), inp.ready.value, inp, 0);
    ServeClosesReady(Admitted(s, inp), inp.ready.value, inp, 0);
    ClosedConnIsGone(Admitted(s, inp), s', inp.ready.value, i);
  }

  lemma ClosedConnIsGone(m: State, s': State, ready: set<int>, i: nat)
    requires Table(m) && i < MAX_CLIENTS && m.clients[i].active && m.clients[i].fd in ready
    requires |s'.clients| == MAX_CLIENTS && Fds(s'.clients, MAX_CLIENTS) !! ready
    requires forall j :: 0 <= j < MAX_CLIENTS && s'.clients[j].active ==> s'.clients[j] == m.clients[j]
    ensures m.clients[i].conn !in Conns(s'.clients, MAX_CLIENTS)
  {
    if m.clients[i].conn in Conns(s'.clients, MAX_CLIENTS) {
      var j := ConnHasSlot(s'.clients, MAX_CLIENTS, m.clients[i].conn);
      SlotHasFd(s'.clients, MAX_CLIENTS, j);
    }
  }

  // ---------- who is answered, and with what number ----------

  /** The descriptors of the active ready clients in the first n slots. */
  function ReadyFds(cs: seq<Client>, ready: set<int>, n: nat): set<int>
    requires n <= |cs|
  {
    if n == 0 then {}
    else ReadyFds(cs, ready, n - 1) + if cs[n - 1].active && cs[n - 1].fd in ready then {cs[n - 1].fd} else {}
  }

  lemma {:induction false} ReadyInSnoc(cs: seq<Client>, ready: set<int>, a: nat, b: nat)
    requires a <= b < |cs|
    ensures ReadyIn(cs, ready, a, b + 1) ==
            ReadyIn(cs, ready, a, b) + if cs[b].active && cs[b].fd in ready then 1 else 0
    decreases b - a
  {
    if a == b {
    } else {
      ReadyInSnoc(cs, ready, a + 1, b);
    }
  }

  lemma {:induction false} ReadyFdsSize(cs: seq<Client>, ready: set<int>, n: nat)
    requires n <= |cs| && Separate(cs)
    ensures ReadyFds(cs, ready, n) <= Fds(cs, n) && |ReadyFds(cs, ready, n)| == ReadyIn(cs, ready, 0, n)
  {
    if n == 0 {
    } else {
      ReadyFdsSize(cs, ready, n - 1);
      ReadyInSnoc(cs, ready, 0, n - 1);
      if cs[n - 1].active && cs[n - 1].fd in ready {
        NotBelow(cs, n - 1);
        OneMore(ReadyFds(cs, ready, n - 1), Fds(cs, n - 1), cs[n - 1].fd);
      }
    }
  }

  lemma OneMore(part: set<int>, all: set<int>, fd: int)
    requires part <= all && fd !in all
    ensures |part + {fd}| == |part| + 1 && part + {fd} <= all + {fd}
  {
  }

  lemma {:induction false} FdsGrow(cs: seq<Client>, n: nat, m: nat)
    requires n <= m <= |cs|
    ensures Fds(cs, n) <= Fds(cs, m)
  {
    if n == m {
    } else {
      FdsGrow(cs, n, m - 1);
    }
  }

  lemma SizeAfterServing(active: set<int>, newcomer: set<int>, served: set<int>)
    requires active !! newcomer && served <= active
    ensures |active + newcomer - served| == |active| + |newcomer| - |served|
  {
    assert |active + newcomer| == |active| + |newcomer|;
    assert active + newcomer == (active + newcomer - served) + served;
  }

  /** The clients active when the round comes to slot i. */
  function ActiveAt(s: State, inp: Input, i: nat): set<int>
    requires i <= |s.clients|
  {
    Fds(s.clients, |s.clients|) + Newcomer(s, inp) - ReadyFds(s.clients, Ready(inp), i)
  }

  lemma ActiveAtSize(s: State, inp: Input, i: nat)
    requires Inv(s) && Possible(s, inp) && i <= MAX_CLIENTS
    ensures |ActiveAt(s, inp, i)| == s.num + |Newcomer(s, inp)| - ReadyIn(s.clients, Ready(inp), 0, i)
  {
    NumIsOpen(s);
    ReadyFdsSize(s.clients, Ready(inp), i);
    FdsGrow(s.clients, i, MAX_CLIENTS);
    SizeAfterServing(Fds(s.clients, MAX_CLIENTS), Newcomer(s, inp), ReadyFds(s.clients, Ready(inp), i));
  }

  lemma {:induction false} ServeKeepsAnswers(s: State, ready: set<int>, inp: Input, a: nat, c: nat)
    requires |s.clients| == MAX_CLIENTS && a <= MAX_CLIENTS
    requires forall j :: a <= j < MAX_CLIENTS && s.clients[j].active ==> s.clients[j].conn != c
    ensures Answers(Serve(s, ready, inp, a).log, c) == Answers(s.log, c)
    decreases MAX_CLIENTS - a
  {
    if a == MAX_CLIENTS {
    } else if s.clients[a].active && s.clients[a].fd in ready {
      ServedAnswers(s, inp, a, c);
      ServeKeepsAnswers(Close(Reply(s, a, inp), a), ready, inp, a + 1, c);
    } else {
      ServeKeepsAnswers(s, ready, inp, a + 1, c);
    }
  }

  lemma ServedAnswers(s: State, inp: Input, a: nat, c: nat)
    requires a < |s.clients|
    ensures Answers(Close(Reply(s, a, inp), a).log, c) ==
            Answers(s.log, c) + if s.clients[a].conn == c && s.clients[a].fd in inp.requests then 1 else 0
  {
    var x := s.clients[a];
    if x.fd in inp.requests {
      var r := inp.requests[x.fd];
      LogGrows(s.log, Received(x.conn, r));
      LogGrows(s.log + [Received(x.conn, r)], Answered(x.conn, Handle(r, s.num, inp.uptime)));
    }
    LogGrows(Reply(s, a, inp).log, Closed(x.conn, x.fd));
  }

  lemma LaterConnsDiffer(s: State, inp: Input, i: nat)
    requires i < |s.clients| && s.clients[i].active && Separate(s.clients)
    ensures var s' := Close(Reply(s, i, inp), i);
            && |s'.clients| == |s.clients| && Separate(s'.clients)
            && forall j :: i < j < |s.clients| ==>
                 s'.clients[j] == s.clients[j] && (s.clients[j].active ==> s.clients[j].conn != s.clients[i].conn)
  {
  }

  lemma {:induction false} ServeAnswersOnce(s: State, ready: set<int>, inp: Input, a: nat, i: nat)
    requires |s.clients| == MAX_CLIENTS && a <= i < MAX_CLIENTS && Separate(s.clients)
    requires s.clients[i].active && s.clients[i].fd in ready
    ensures Answers(Serve(s, ready, inp, a).log, s.clients[i].conn) ==
            Answers(s.log, s.clients[i].conn) + if s.clients[i].fd in inp.requests then 1 else 0
    decreases i - a
  {
    var c := s.clients[i].conn;
    if a == i {
      ServedAnswers(s, inp, i, c);
      LaterConnsDiffer(s, inp, i);
      ServeKeepsAnswers(Close(Reply(s, i, inp), i), ready, inp, i + 1, c);
    } else if s.clients[a].active && s.clients[a].fd in ready {
      ServedAnswers(s, inp, a, c);
      LaterConnsDiffer(s, inp, a);
      ServeAnswersOnce(Close(Reply(s, a, inp), a), ready, inp, a + 1, i);
    } else {
      ServeAnswersOnce(s, ready, inp, a + 1, i);
    }
  }

  /** A client found readable is answered in that round, once, if a whole request could be read from it,
      and not at all otherwise. */
  lemma RoundAnswersRequests(s: State, inp: Input, i: nat)
    requires Inv(s) && Possible(s, inp) && i < MAX_CLIENTS
    requires s.clients[i].active && s.clients[i].fd in Ready(inp)
    ensures Answers(s.log, s.clients[i].conn) == 0
    ensures Answers(Round(s, inp).log, s.clients[i].conn) == if s.clients[i].fd in inp.requests then 1 else 0
  {
    SlotHasFd(s.clients, MAX_CLIENTS, i);
    AdmittedKeepsClients(s, inp, i);
    SlotHasFd(Admitted(s, inp).clients, MAX_CLIENTS, i);
    ServeAnswersOnce(Admitted(s, inp), inp.ready.value, inp, 0, i);
  }

  /** What that answer says, for every ready slot, also after another client asked for shutdown: a status
      answer gives the number of clients active at that moment, itself included, which are those at the
      start of the round and the newcomer, without the ready clients in earlier slots. */
  lemma RoundAnswersReady(s: State, inp: Input, i: nat) returns (resp: Response)
    requires Inv(s) && Possible(s, inp) && i < MAX_CLIENTS
    requires s.clients[i].active && s.clients[i].fd in Ready(inp) && s.clients[i].fd in inp.requests
    ensures Answered(s.clients[i].conn, resp) in Round(s, inp).log
    ensures Replies(inp.requests[s.clients[i].fd], resp, |ActiveAt(s, inp, i)|, inp.uptime)
  {
    var r, n := inp.requests[s.clients[i].fd], |ActiveAt(s, inp, i)|;
    resp := Handle(r, n, inp.uptime);
    ActiveAtSize(s, inp, i);
    AdmittedKeepsClients(s, inp, i);
    ServeReports(Admitted(s, inp), inp.ready.value, inp, 0, i, n);
    ActiveAtIsSmall(s, inp, i);
    AnswerIsWholeText(r, n, inp.uptime);
  }

  lemma ActiveAtIsSmall(s: State, inp: Input, i: nat)
    requires Inv(s) && Possible(s, inp) && i < MAX_CLIENTS
    ensures |ActiveAt(s, inp, i)| <= 64
  {
    ActiveAtSize(s, inp, i);
    NumIsOpen(s);
  }

  /** A status request from the third of three clients, 100 seconds after the start. */
  lemma StatusExample()
    ensures Handle(Request(7, Status), 3, 100) ==
            Response(7, Ok, "", 31, "Running:1 Clients:3 Uptime:100" + ['\0'])
  {
    assert Decimal(3) == "3";
    assert Decimal(100) == Decimal(10) + "0" && Decimal(10) == Decimal(1) + "0" && Decimal(1) == "1";
    assert StatusText(3, 100) == "Running:1 Clients:3 Uptime:100";
  }

  lemma AdmittedAsksTheSame(s: State, inp: Input)
    requires Inv(s) && Possible(s, inp) && inp.ready.Some?
    ensures |Admitted(s, inp).clients| == MAX_CLIENTS
    ensures AsksShutdown(Admitted(s, inp).clients, inp.ready.value, inp, 0) <==>
            AsksShutdown(s.clients, inp.ready.value, inp, 0)
  {
    var m := Admitted(s, inp);
    if s.serverFd in inp.ready.value && inp.incoming >= 0 {
      var k := FreeSlot(s.clients);
      assert forall j :: 0 <= j < MAX_CLIENTS && j != k ==> m.clients[j] == s.clients[j];
      assert k < MAX_CLIENTS ==> m.clients[k].fd !in inp.ready.value;
    }
  }

  /** The loop goes on after the round exactly when no ready client asked for shutdown in it. */
  lemma RoundRunning(s: State, inp: Input)
    requires Inv(s) && Possible(s, inp)
    ensures Round(s, inp).running <==> s.running && !AsksShutdown(s.clients, Ready(inp), inp, 0)
  {
    if inp.ready.Some? {
      ServeRunning(Admitted(s, inp), inp.ready.value, inp, 0);
      AdmittedAsksTheSame(s, inp);
    }
  }

  // ---------- whole runs ----------

  datatype Step = Turn(inp: Input) | Drop(fd: int) | Stop

  predicate Enabled(s: State, a: Step) {
    a.Turn? ==> s.running && Possible(s, a.inp)
  }

  function Next(s: State, a: Step): State
    requires |s.clients| == MAX_CLIENTS
  {
    match a
    case Turn(inp) => Round(s, inp)
    case Drop(fd) => Disconnect(s, fd)
    case Stop => s.(running := false)
  }

  function Listening(serverFd: int): State {
    State(seq(MAX_CLIENTS, _ => IDLE), 0, true, serverFd, 0, [])
  }

  function Exec(serverFd: int, run: seq<Step>): Option<State> {
    if run == [] then Some(Listening(serverFd)) else
      match Exec(serverFd, run[..|run| - 1])
      case None => None
      case Some(s) =>
        if Enabled(s, run[|run| - 1]) && |s.clients| == MAX_CLIENTS then Some(Next(s, run[|run| - 1])) else None
  }

  lemma {:induction false} NobodyAtFirst(n: nat)
    requires n <= MAX_CLIENTS
    ensures var cs := Listening(0).clients;
            Fds(cs, n) == {} && Conns(cs, n) == {} && Count(cs, n) == 0
  {
    if n == 0 {
    } else {
      NobodyAtFirst(n - 1);
    }
  }

  /** From init on, over every run: active slots hold distinct open descriptors, the counter is their
      number, and each connection is open and unanswered or closed once and answered at most once. */
  lemma {:induction false} EveryRunKeepsInv(serverFd: int, run: seq<Step>)
    requires Exec(serverFd, run).Some?
    ensures var s := Exec(serverFd, run).value;
            Inv(s) && 0 <= s.num <= 64
  {
    var s' := Exec(serverFd, run).value;
    if run == [] {
      NobodyAtFirst(MAX_CLIENTS);
    } else {
      var s := Exec(serverFd, run[..|run| - 1]).value;
      EveryRunKeepsInv(serverFd, run[..|run| - 1]);
      match run[|run| - 1]
      case Turn(inp) => RoundKeepsInv(s, inp);
      case Drop(fd) => DisconnectKeepsInv(s, fd);
      case Stop =>
    }
    CountOfAll(s'.clients, MAX_CLIENTS);
  }

  /** Over every run: each answer follows its request on the same connection, and the number in a status
      answer is the number of connections accepted and not closed when it was sent. */
  lemma EveryAnswerIsRight(serverFd: int, run: seq<Step>, k: nat)
    requires Exec(serverFd, run).Some? && k < |Exec(serverFd, run).value.log|
    requires Exec(serverFd, run).value.log[k].Answered?
    ensures var log := Exec(serverFd, run).value.log;
            && k > 0 && log[k - 1].Received? && log[k - 1].conn == log[k].conn
            && log[k].resp.requestId == log[k - 1].r.id
            && (log[k].resp.status == Ok <==> log[k - 1].r.command != Other)
            && (log[k - 1].r.command == Status ==> ReportsClients(log[k].resp.data, |Open(log[..k])|))
  {
    EveryRunKeepsInv(serverFd, run);
    assert MatchedAt(Exec(serverFd, run).value.log, k);
  }

  // ---------- cleanup ----------

  /** The loop of ipc_server_cleanup; it leaves num_clients alone. */
  function CloseAll(s: State, i: nat): State
    requires |s.clients| == MAX_CLIENTS && i <= MAX_CLIENTS
    decreases MAX_CLIENTS - i
  {
    if i == MAX_CLIENTS then s
    else if s.clients[i].active then CloseAll(Close(s, i).(num := s.num), i + 1)
    else CloseAll(s, i + 1)
  }

  lemma {:induction false} CloseAllClosesAll(s: State, i: nat)
    requires Tracked(s) && i <= MAX_CLIENTS && forall j :: 0 <= j < i ==> !s.clients[j].active
    ensures var s' := CloseAll(s, i);
            && Tracked(s') && s'.next == s.next && s'.num == s.num
            && forall j :: 0 <= j < MAX_CLIENTS ==> !s'.clients[j].active
    decreases MAX_CLIENTS - i
  {
    if i == MAX_CLIENTS {
    } else {
      if s.clients[i].active {
        SlotHasFd(s.clients, MAX_CLIENTS, i);
        CloseKeepsTracked(s, i);
        CloseAllClosesAll(Close(s, i).(num := s.num), i + 1);
      } else {
        CloseAllClosesAll(s, i + 1);
      }
    }
  }

  lemma {:induction false} NobodyLeft(cs: seq<Client>, n: nat)
    requires n <= |cs| && forall j :: 0 <= j < n ==> !cs[j].active
    ensures Fds(cs, n) == {} && Conns(cs, n) == {}
  {
    if n == 0 {
    } else {
      NobodyLeft(cs, n - 1);
    }
  }

  /** After cleanup, whatever the run before: no accepted descriptor is open, and every connection ever
      accepted, refused ones included, has been closed exactly once.  The counter keeps its last value,
      which is the number of active slots exactly when nobody was active. */
  lemma CleanupClosesEverythingOnce(serverFd: int, run: seq<Step>)
    requires Exec(serverFd, run).Some? && |Exec(serverFd, run).value.clients| == MAX_CLIENTS
    ensures var s := Exec(serverFd, run).value;
            var s' := CloseAll(s, 0);
            && Open(s'.log) == {} && s'.next == s.next
            && |s'.clients| == MAX_CLIENTS && s'.num == s.num
            && (s'.num == Count(s'.clients, MAX_CLIENTS) <==> Fds(s.clients, MAX_CLIENTS) == {})
            && forall c: nat :: Closes(s'.log, c) == (if c < s.next then 1 else 0) && Answers(s'.log, c) <= 1
  {
    var s := Exec(serverFd, run).value;
    EveryRunKeepsInv(serverFd, run);
    CloseAllClosesAll(s, 0);
    NobodyLeft(CloseAll(s, 0).clients, MAX_CLIENTS);
    CountIsSize(s.clients, MAX_CLIENTS);
    CountIsSize(CloseAll(s, 0).clients, MAX_CLIENTS);
  }
}
