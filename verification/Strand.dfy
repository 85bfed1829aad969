/** The server's per-connection strand: one event loop, any number of workers, and descriptors the kernel may reuse.

The event loop splits received bytes into lines and queues them; one drain task per connection executes them in order.
Each critical section of a connection's mutex is one step, and so is each reply. A read, a reply or a close that would
hit a descriptor the connection does not own sets `faulted`; so does starting a drain task while there is one, and
submitting a task that is not owed.
*/
module Strands {
  import opened Options

  type Fd = nat
  type Cid = nat

  const MAX_LINE_BYTES: nat := 65536
  const MAX_PENDING: nat := 1024

  // ---- Lines ----

  /** Drops a trailing carriage return. */
  function Strip(line: string): string {
    if |line| > 0 && line[|line| - 1] == '\r' then line[..|line| - 1] else line
  }

  function Clean(line: string): seq<string> {
    if Strip(line) == "" then [] else [Strip(line)]
  }

  /** The position of the first newline. */
  function FindNewline(s: string): (r: Option<nat>)
    ensures r.Some? ==> r.value < |s| && s[r.value] == '\n' && '\n' !in s[..r.value]
    ensures r.None? ==> '\n' !in s
  {
    if |s| == 0 then None
    else if s[0] == '\n' then Some(0)
    else
      match FindNewline(s[1..])
      case None => assert s == [s[0]] + s[1..]; None
      case Some(i) => assert s[..i + 1] == [s[0]] + s[1..][..i]; Some(i + 1)
  }

  /** The non-empty lines of a text, in order; an unfinished last line does not count. */
  function Lines(s: string): seq<string>
    decreases |s|
  {
    match FindNewline(s)
    case None => []
    case Some(i) => Clean(s[..i]) + Lines(s[i + 1..])
  }

  // ---- State ----

  /** Where a connection's drain task is. */
  datatype Drain = NoTask | Owed | Queued | Fetching | Executing(query: string) | Failing

  /** The fields of a connection, then what the proof remembers: bytes taken off the wire and out of the inbox,
      whether a limit was hit, all lines ever queued, those executed with their positions among them, failed writes,
      and closes. */
  datatype Conn = Conn(
    fd: Fd, inbox: string, pending: seq<string>, busy: bool, closed: bool, drain: Drain,
    received: string, consumed: string, over: bool,
    queued: seq<string>, executed: seq<string>, positions: seq<int>, lost: bool, closes: nat)

  /** What the event loop is doing: waiting, splitting lines, past the splitting, or between unlisting and closing. */
  datatype Loop =
    | Waiting
    | Splitting(c: Cid, shouldDispatch: bool, peerClosed: bool)
    | After(c: Cid, shouldDispatch: bool, drop: bool)
    | Dropping(c: Cid)

  datatype Server = Server(
    conns: map<Cid, Conn>, listed: map<Fd, Cid>, open: map<Fd, Cid>, loop: Loop, faulted: bool)

  datatype Step =
    | Accept(c: Cid, fd: Fd)
    | Read(fd: Fd, bytes: string, peerClosed: bool)
    | NextLine
    | Dispatch
    | Finish
    | Unlist
    | Drop
    | TakeTask(c: Cid)
    | Fetch(c: Cid)
    | Reply(c: Cid, ok: bool)
    | GiveUp(c: Cid)

  ghost predicate Init(s: Server) {
    s == Server(map[], map[], map[], Waiting, false)
  }

  const BLANK: Conn := Conn(0, "", [], false, false, NoTask, "", "", false, [], [], [], false, 0)

  function At(s: Server, c: Cid): Conn {
    if c in s.conns then s.conns[c] else BLANK
  }

  ghost predicate Enabled(s: Server, step: Step) {
    match step
    case Accept(c, fd) => s.loop.Waiting? && c !in s.conns && fd !in s.open
    case Read(fd, _, _) => s.loop.Waiting? && fd in s.listed
    case NextLine => s.loop.Splitting?
    case Dispatch => s.loop.After? && s.loop.shouldDispatch
    case Finish => s.loop.After? && !s.loop.shouldDispatch && !s.loop.drop
    case Unlist => s.loop.After? && !s.loop.shouldDispatch && s.loop.drop
    case Drop => s.loop.Dropping?
    case TakeTask(c) => At(s, c).drain.Queued?
    case Fetch(c) => At(s, c).drain.Fetching?
    case Reply(c, _) => At(s, c).drain.Executing?
    case GiveUp(c) => At(s, c).drain.Failing?
  }

  function Set(s: Server, c: Cid, k: Conn): Server {
    s.(conns := s.conns[c := k])
  }

  /** Closes a connection's descriptor in the kernel. */
  function Close(s: Server, c: Cid): Server {
    var k := At(s, c);
    if k.fd !in s.open || s.open[k.fd] != c then s.(faulted := true)
    else s.(open := s.open - {k.fd}, conns := s.conns[c := k.(closes := k.closes + 1)])
  }

  /** Takes the line that ends at `i` out of the inbox. */
  function TakeLine(k: Conn, i: nat): Conn
    requires i < |k.inbox|
  {
    k.(inbox := k.inbox[i + 1..], consumed := k.consumed + k.inbox[..i + 1])
  }

  /** Queues a line, and marks the connection busy with a task owed if it was idle. */
  function QueueLine(k: Conn, line: string): Conn {
    k.(pending := k.pending + [line], queued := k.queued + [line], busy := true,
       drain := if k.busy then k.drain else Owed)
  }

  /** One turn of the line-splitting loop. */
  function SplitStep(k: Conn, shouldDispatch: bool, peerClosed: bool, c: Cid): (Conn, Loop) {
    match FindNewline(k.inbox)
    case None =>
      (k, After(c, shouldDispatch, peerClosed || |k.inbox| > MAX_LINE_BYTES))
    case Some(i) =>
      var line, k' := Strip(k.inbox[..i]), TakeLine(k, i);
      if line == "" then (k', Splitting(c, shouldDispatch, peerClosed))
      else if |line| > MAX_LINE_BYTES || |k.pending| >= MAX_PENDING then
        (k'.(over := true), After(c, shouldDispatch, true))
      else (QueueLine(k', line), Splitting(c, shouldDispatch || !k.busy, peerClosed))
  }

  /** The worker's turn at an empty or non-empty queue. */
  function FetchStep(k: Conn): Conn {
    if |k.pending| == 0 then k.(busy := false, drain := NoTask)
    else k.(pending := k.pending[1..], drain := Executing(k.pending[0]))
  }

  ghost function Do(s: Server, step: Step): Server
    requires Enabled(s, step)
  {
    match step
    case Accept(c, fd) =>
      Set(s, c, BLANK.(fd := fd))
        .(open := s.open[fd := c], listed := if fd in s.listed then s.listed else s.listed[fd := c])
    case Read(fd, bytes, peerClosed) =>
      var c := s.listed[fd];
      var k := At(s, c);
      if fd !in s.open || s.open[fd] != c then s.(faulted := true) else
      Set(s, c, k.(inbox := k.inbox + bytes, received := k.received + bytes)).(loop := Splitting(c, false, peerClosed))
    case NextLine =>
      var k := At(s, s.loop.c);
      var r := SplitStep(k, s.loop.shouldDispatch, s.loop.peerClosed, s.loop.c);
      if !k.busy && r.0.busy && !k.drain.NoTask? then s.(faulted := true) else
      Set(s, s.loop.c, r.0).(loop := r.1)
    case Dispatch =>
      if !At(s, s.loop.c).drain.Owed? then s.(faulted := true) else
      Set(s, s.loop.c, At(s, s.loop.c).(drain := Queued)).(loop := After(s.loop.c, false, s.loop.drop))
    case Finish => s.(loop := Waiting)
    case Unlist =>
      var fd := At(s, s.loop.c).fd;
      if fd !in s.listed then s.(loop := Waiting)
      else s.(listed := s.listed - {fd}, loop := Dropping(s.listed[fd]))
    case Drop =>
      var k := At(s, s.loop.c);
      var s1 := Set(s, s.loop.c, k.(closed := true)).(loop := Waiting);
      if k.busy then s1 else Close(s1, s.loop.c)
    case TakeTask(c) => Set(s, c, At(s, c).(drain := Fetching))
    case Fetch(c) =>
      var s1 := Set(s, c, FetchStep(At(s, c)));
      if |At(s, c).pending| == 0 && At(s, c).closed then Close(s1, c) else s1
    case Reply(c, ok) =>
      var k := At(s, c);
      if k.fd !in s.open || s.open[k.fd] != c then s.(faulted := true)
      else Set(s, c, k.(executed := k.executed + [k.drain.query],
                        positions := k.positions + [|k.queued| - |k.pending| - 1],
                        lost := k.lost || !ok, drain := if ok then Fetching else Failing))
    case GiveUp(c) =>
      var s1 := Set(s, c, At(s, c).(busy := false, pending := [], drain := NoTask));
      if At(s, c).closed then Close(s1, c) else s1
  }

  // ---- The invariant ----

  ghost predicate Owns(s: Server, c: Cid)
    requires c in s.conns
  {
    s.conns[c].fd in s.open && s.open[s.conns[c].fd] == c
  }

  ghost predicate Listed(s: Server, c: Cid)
    requires c in s.conns
  {
    s.conns[c].fd in s.listed && s.listed[s.conns[c].fd] == c
  }

  /** The event loop is splitting, or finishing, this connection's input. */
  predicate Handling(loop: Loop, c: Cid) {
    (loop.Splitting? || loop.After?) && loop.c == c
  }

  ghost predicate LegalLine(line: string) {
    0 < |line| <= MAX_LINE_BYTES
  }

  /** A connection is busy exactly when a drain task is owed, queued or running, and then alone holds pending lines. */
  ghost predicate StrandOk(loop: Loop, c: Cid, k: Conn) {
    && (k.busy <==> !k.drain.NoTask?)
    && (k.pending != [] ==> k.busy)
    && |k.pending| <= MAX_PENDING && (forall i :: 0 <= i < |k.pending| ==> LegalLine(k.pending[i]))
    && (k.drain.Owed? <==> Handling(loop, c) && loop.shouldDispatch)
  }

  /** Once a limit is hit no more lines are split: the connection is unlisted, or next to be. */
  ghost predicate OverOk(s: Server, c: Cid)
    requires c in s.conns
  {
    s.conns[c].over ==> !Listed(s, c) || (s.loop.After? && s.loop.c == c && s.loop.drop)
  }

  /** The descriptor is open until the connection is dropped and idle, and then closed once, unlisted. */
  ghost predicate DescriptorOk(s: Server, c: Cid)
    requires c in s.conns
  {
    var k := s.conns[c];
    && (Owns(s, c) <==> !(k.closed && !k.busy))
    && k.closes == (if k.closed && !k.busy then 1 else 0)
    && (Listed(s, c) ==> !k.closed)
    && (!Listed(s, c) ==> k.closed || s.loop == Dropping(c))
    && (s.loop == Dropping(c) ==> !Listed(s, c) && !k.closed)
    && (Handling(s.loop, c) ==> Listed(s, c))
  }

  ghost predicate Increasing(positions: seq<int>) {
    forall i, j :: 0 <= i < j < |positions| ==> positions[i] < positions[j]
  }

  /** Lines that have left the queue: executed, in execution, or thrown away after a failed write. */
  function Gone(k: Conn): int {
    |k.queued| - |k.pending|
  }

  function InHand(k: Conn): nat {
    if k.drain.Executing? then 1 else 0
  }

  /** Executed queries are queued lines in order, and all of them when no write failed. */
  ghost predicate HistoryOk(k: Conn) {
    && Gone(k) >= InHand(k) && k.pending == k.queued[Gone(k)..]
    && (k.drain.Executing? ==> k.drain.query == k.queued[Gone(k) - 1])
    && |k.positions| == |k.executed| && Increasing(k.positions)
    && (forall i :: 0 <= i < |k.executed| ==>
              0 <= k.positions[i] < Gone(k) - InHand(k) && k.executed[i] == k.queued[k.positions[i]])
    && (!k.lost ==> k.executed == k.queued[..Gone(k) - InHand(k)])
    && (k.drain.Failing? ==> k.lost)
  }

  /** The queued lines are the lines of the bytes taken so far, however the bytes were cut into reads; a limit costs
      the line that hit it, which is the last one taken. */
  ghost predicate LinesOk(k: Conn) {
    && k.received == k.consumed + k.inbox
    && (k.consumed == "" || k.consumed[|k.consumed| - 1] == '\n')
    && k.queued <= Lines(k.consumed) && |Lines(k.consumed)| == |k.queued| + if k.over then 1 else 0
  }

  ghost predicate ConnOk(s: Server, c: Cid)
    requires c in s.conns
  {
    StrandOk(s.loop, c, s.conns[c]) && DescriptorOk(s, c) && OverOk(s, c)
  }

  ghost predicate TablesOk(s: Server) {
    && !s.faulted
    && (forall fd :: fd in s.listed ==> s.listed[fd] in s.conns && s.conns[s.listed[fd]].fd == fd)
    && (forall fd :: fd in s.open ==> s.open[fd] in s.conns && s.conns[s.open[fd]].fd == fd)
    && (!s.loop.Waiting? ==> s.loop.c in s.conns)
  }

  /** The protocol part of the invariant, and the part about what each connection has done. */
  ghost predicate Protocol(s: Server) {
    TablesOk(s) && forall c :: c in s.conns ==> ConnOk(s, c)
  }

  ghost predicate Record(k: Conn) {
    HistoryOk(k) && LinesOk(k)
  }

  ghost predicate Inv(s: Server) {
    Protocol(s) && forall c :: c in s.conns ==> Record(s.conns[c])
  }

  // ---- The protocol part ----

  ghost predicate SameView(s: Server, s': Server, c: Cid) {
    && c in s.conns && c in s'.conns && s'.conns[c] == s.conns[c]
    && (Owns(s', c) <==> Owns(s, c)) && (Listed(s', c) <==> Listed(s, c))
    && (s'.loop == Dropping(c) <==> s.loop == Dropping(c))
    && (Handling(s'.loop, c) || Handling(s.loop, c) ==> s'.loop == s.loop)
  }

  lemma Unaffected(s: Server, s': Server, c: Cid)
    requires SameView(s, s', c) && ConnOk(s, c)
    ensures ConnOk(s', c)
  {
  }

  /** All but one connection keep their view; the one is shown apart. */
  lemma OneChanged(s: Server, s': Server, c: Cid)
    requires Protocol(s) && TablesOk(s') && s'.conns.Keys == s.conns.Keys + {c}
    requires ConnOk(s', c)
    requires forall o :: o in s.conns && o != c ==> SameView(s, s', o)
    ensures Protocol(s')
  {
    hide ConnOk, SameView, TablesOk;
    forall o | o in s'.conns ensures ConnOk(s', o) {
      if o != c {
        assert SameView(s, s', o);
        Unaffected(s, s', o);
      }
    }
  }

  /** A listed descriptor is open, so the kernel never hands it out. */
  lemma ListedIsOpen(s: Server, fd: Fd)
    requires Protocol(s)
    ensures fd in s.listed ==> fd in s.open
  {
    assert fd in s.listed ==> ConnOk(s, s.listed[fd]);
  }

  /** The loop stays, or moves between this connection and waiting. */
  predicate LoopMoves(loop: Loop, loop': Loop, c: Cid) {
    loop' == loop || ((loop'.Waiting? || loop'.c == c) && (loop.Waiting? || loop.c == c))
  }

  lemma SetView(s: Server, c: Cid, k: Conn, loop: Loop, o: Cid)
    requires c in s.conns && k.fd == s.conns[c].fd && LoopMoves(s.loop, loop, c) && o in s.conns && o != c
    ensures SameView(s, Set(s, c, k).(loop := loop), o)
  {
  }

  lemma SetOthers(s: Server, c: Cid, k: Conn, loop: Loop)
    requires Protocol(s) && c in s.conns && k.fd == s.conns[c].fd && LoopMoves(s.loop, loop, c)
    ensures var s' := Set(s, c, k).(loop := loop);
      forall o :: o in s.conns && o != c ==> o in s'.conns && ConnOk(s', o)
  {
    hide ConnOk, SameView, Set, LoopMoves;
    var s' := Set(s, c, k).(loop := loop);
    forall o | o in s.conns && o != c ensures SameView(s, s', o) {
      SetView(s, c, k, loop, o);
    }
    OthersOk(s, s', c);
  }

  /** Replacing a connection's fields, its descriptor aside, and moving the loop on, concerns no other connection. */
  lemma SetKeeps(s: Server, c: Cid, k: Conn, loop: Loop)
    requires Protocol(s) && c in s.conns && k.fd == s.conns[c].fd && LoopMoves(s.loop, loop, c)
    requires ConnOk(Set(s, c, k).(loop := loop), c)
    ensures Protocol(Set(s, c, k).(loop := loop))
  {
    hide ConnOk;
    SetOthers(s, c, k, loop);
  }

  lemma OthersOk(s: Server, s': Server, c: Cid)
    requires forall o :: o in s.conns && o != c ==> ConnOk(s, o) && SameView(s, s', o)
    ensures forall o :: o in s.conns && o != c ==> o in s'.conns && ConnOk(s', o)
  {
    hide ConnOk;
    forall o | o in s.conns && o != c ensures o in s'.conns && ConnOk(s', o) {
      Unaffected(s, s', o);
    }
  }

  /** Dropped, idle, out of the map, and not closed yet. */
  ghost predicate Closable(s: Server, c: Cid) {
    && c in s.conns && Owns(s, c) && !Listed(s, c) && s.loop != Dropping(c) && !Handling(s.loop, c)
    && var k := s.conns[c]; k.closed && !k.busy && k.drain.NoTask? && k.pending == [] && k.closes == 0
  }

  lemma CloseOk(s: Server, c: Cid)
    requires TablesOk(s) && Closable(s, c)
    ensures c in Close(s, c).conns && ConnOk(Close(s, c), c) && TablesOk(Close(s, c))
  {
  }

  lemma CloseView(s: Server, c: Cid, o: Cid)
    requires TablesOk(s) && Closable(s, c) && o in s.conns && o != c
    ensures SameView(s, Close(s, c), o)
  {
  }

  /** Closing the descriptor of a connection that owns it concerns no other connection. */
  lemma CloseKeeps(s: Server, c: Cid)
    requires TablesOk(s) && Closable(s, c) && forall o :: o in s.conns && o != c ==> ConnOk(s, o)
    ensures Protocol(Close(s, c))
  {
    hide ConnOk, SameView;
    assert Close(s, c).conns.Keys == s.conns.Keys;
    hide Close;
    CloseOk(s, c);
    hide TablesOk;
    forall o | o in s.conns && o != c ensures SameView(s, Close(s, c), o) {
      CloseView(s, c, o);
    }
    OthersOk(s, Close(s, c), c);
  }

  function Accepted(s: Server, c: Cid, fd: Fd): Server {
    Server(s.conns[c := BLANK.(fd := fd)], s.listed[fd := c], s.open[fd := c], s.loop, s.faulted)
  }

  lemma AcceptTables(s: Server, c: Cid, fd: Fd)
    requires TablesOk(s) && s.loop.Waiting? && c !in s.conns && fd !in s.open && fd !in s.listed
    ensures TablesOk(Accepted(s, c, fd)) && ConnOk(Accepted(s, c, fd), c)
  {
  }

  lemma AcceptView(s: Server, c: Cid, fd: Fd, o: Cid)
    requires TablesOk(s) && s.loop.Waiting? && c !in s.conns && fd !in s.open && fd !in s.listed && o in s.conns
    ensures SameView(s, Accepted(s, c, fd), o)
  {
  }

  lemma AcceptKeeps(s: Server, c: Cid, fd: Fd)
    requires Protocol(s) && Enabled(s, Accept(c, fd))
    ensures Protocol(Do(s, Accept(c, fd)))
  {
    ListedIsOpen(s, fd);
    var s' := Accepted(s, c, fd);
    assert Do(s, Accept(c, fd)) == s' && s'.conns.Keys == s.conns.Keys + {c};
    hide Do, ConnOk, SameView, Accepted;
    AcceptTables(s, c, fd);
    forall o | o in s.conns ensures SameView(s, s', o) {
      AcceptView(s, c, fd, o);
    }
    hide TablesOk;
    OneChanged(s, s', c);
  }

  lemma ReadKeeps(s: Server, fd: Fd, bytes: string, peerClosed: bool)
    requires Protocol(s) && Enabled(s, Read(fd, bytes, peerClosed))
    ensures Protocol(Do(s, Read(fd, bytes, peerClosed)))
  {
    var c := s.listed[fd];
    var k := s.conns[c];
    assert ConnOk(s, c);
    SetKeeps(s, c, k.(inbox := k.inbox + bytes, received := k.received + bytes), Splitting(c, false, peerClosed));
  }

  lemma DispatchKeeps(s: Server)
    requires Protocol(s) && Enabled(s, Dispatch)
    ensures Protocol(Do(s, Dispatch))
  {
    var c := s.loop.c;
    assert ConnOk(s, c);
    SetKeeps(s, c, s.conns[c].(drain := Queued), After(c, false, s.loop.drop));
  }

  lemma FinishOk(s: Server)
    requires TablesOk(s) && Enabled(s, Finish) && ConnOk(s, s.loop.c)
    ensures ConnOk(s.(loop := Waiting), s.loop.c)
  {
  }

  lemma FinishKeeps(s: Server)
    requires Protocol(s) && Enabled(s, Finish)
    ensures Protocol(Do(s, Finish))
  {
    var s', c := s.(loop := Waiting), s.loop.c;
    assert Do(s, Finish) == s';
    hide Do, ConnOk;
    assert ConnOk(s, c);
    FinishOk(s);
    hide Enabled;
    forall o | o in s.conns && o != c ensures SameView(s, s', o) {
    }
    hide SameView;
    OneChanged(s, s', c);
  }

  lemma UnlistOk(s: Server)
    requires TablesOk(s) && Enabled(s, Unlist) && ConnOk(s, s.loop.c)
    ensures ConnOk(Do(s, Unlist), s.loop.c) && TablesOk(Do(s, Unlist))
  {
  }

  lemma UnlistView(s: Server, o: Cid)
    requires Protocol(s) && Enabled(s, Unlist) && o in s.conns && o != s.loop.c && Listed(s, s.loop.c)
    ensures SameView(s, Do(s, Unlist), o)
  {
    hide ConnOk;
  }

  lemma UnlistKeeps(s: Server)
    requires Protocol(s) && Enabled(s, Unlist)
    ensures Protocol(Do(s, Unlist))
  {
    var s', c := Do(s, Unlist), s.loop.c;
    assert s'.conns == s.conns;
    assert ConnOk(s, c);
    UnlistOk(s);
    assert Listed(s, c);
    hide Do, ConnOk, SameView, Listed;
    forall o | o in s.conns && o != c ensures SameView(s, s', o) {
      UnlistView(s, o);
    }
    hide TablesOk;
    OneChanged(s, s', c);
  }

  lemma DropBusy(s: Server, c: Cid)
    requires Protocol(s) && s.loop == Dropping(c) && s.conns[c].busy
    ensures Protocol(Set(s, c, s.conns[c].(closed := true)).(loop := Waiting))
  {
    assert ConnOk(s, c);
    SetKeeps(s, c, s.conns[c].(closed := true), Waiting);
  }

  lemma DroppedIsClosable(s: Server, c: Cid)
    requires c in s.conns && ConnOk(s, c) && s.loop == Dropping(c) && !s.conns[c].busy
    ensures Closable(Set(s, c, s.conns[c].(closed := true)).(loop := Waiting), c)
  {
  }

  lemma DropIdle(s: Server, c: Cid)
    requires Protocol(s) && s.loop == Dropping(c) && !s.conns[c].busy
    ensures Protocol(Close(Set(s, c, s.conns[c].(closed := true)).(loop := Waiting), c))
  {
    hide ConnOk, Close, Closable;
    DroppedIsClosable(s, c);
    SetOthers(s, c, s.conns[c].(closed := true), Waiting);
    CloseKeeps(Set(s, c, s.conns[c].(closed := true)).(loop := Waiting), c);
  }

  lemma DropKeeps(s: Server)
    requires Protocol(s) && Enabled(s, Drop)
    ensures Protocol(Do(s, Drop))
  {
    hide ConnOk;
    var c := s.loop.c;
    if s.conns[c].busy {
      DropBusy(s, c);
    } else {
      DropIdle(s, c);
    }
  }

  lemma QueueStrand(k: Conn, loop: Loop, line: string)
    requires loop.Splitting? && StrandOk(loop, loop.c, k) && LegalLine(line) && |k.pending| < MAX_PENDING
    ensures StrandOk(Splitting(loop.c, loop.shouldDispatch || !k.busy, loop.peerClosed), loop.c, QueueLine(k, line))
  {
    hide LegalLine;
  }

  lemma TakeStrand(k: Conn, loop: Loop, c: Cid, i: nat)
    requires StrandOk(loop, c, k) && i < |k.inbox|
    ensures StrandOk(loop, c, TakeLine(k, i)) && StrandOk(loop, c, TakeLine(k, i).(over := true))
  {
    hide LegalLine;
  }

  lemma EndStrand(k: Conn, loop: Loop, drop: bool)
    requires loop.Splitting? && StrandOk(loop, loop.c, k)
    ensures StrandOk(After(loop.c, loop.shouldDispatch, drop), loop.c, k)
  {
    hide LegalLine;
  }

  lemma SplitStrand(k: Conn, loop: Loop)
    requires loop.Splitting? && StrandOk(loop, loop.c, k)
    ensures var r := SplitStep(k, loop.shouldDispatch, loop.peerClosed, loop.c);
      && StrandOk(r.1, loop.c, r.0) && Handling(r.1, loop.c)
      && (r.0.over ==> k.over || (r.1.After? && r.1.drop))
      && r.0.fd == k.fd && r.0.closed == k.closed && r.0.closes == k.closes && (k.closed ==> r.0.busy || !k.busy)
  {
    hide FindNewline, Strip, StrandOk;
    match FindNewline(k.inbox)
    case None => EndStrand(k, loop, loop.peerClosed || |k.inbox| > MAX_LINE_BYTES);
    case Some(i) =>
      var line, k' := Strip(k.inbox[..i]), TakeLine(k, i);
      TakeStrand(k, loop, loop.c, i);
      if line != "" {
        if |line| > MAX_LINE_BYTES || |k.pending| >= MAX_PENDING {
          EndStrand(k'.(over := true), loop, true);
        } else {
          QueueStrand(k', loop, line);
        }
      }
  }

  lemma NextLineKeeps(s: Server)
    requires Protocol(s) && Enabled(s, NextLine)
    ensures Protocol(Do(s, NextLine))
  {
    var c := s.loop.c;
    assert ConnOk(s, c);
    SplitStrand(s.conns[c], s.loop);
    hide SplitStep;
    var r := SplitStep(s.conns[c], s.loop.shouldDispatch, s.loop.peerClosed, c);
    SetKeeps(s, c, r.0, r.1);
  }

  lemma TakeTaskKeeps(s: Server, c: Cid)
    requires Protocol(s) && Enabled(s, TakeTask(c))
    ensures Protocol(Do(s, TakeTask(c)))
  {
    assert ConnOk(s, c);
    SetKeeps(s, c, s.conns[c].(drain := Fetching), s.loop);
  }

  lemma DrainCloses(s: Server, c: Cid, k: Conn)
    requires Protocol(s) && c in s.conns && s.conns[c].busy && s.conns[c].closed
    requires k == s.conns[c].(busy := false, pending := [], drain := NoTask)
    ensures Protocol(Close(Set(s, c, k), c))
  {
    assert ConnOk(s, c);
    assert Closable(Set(s, c, k), c);
    hide ConnOk, Close, Closable;
    SetOthers(s, c, k, s.loop);
    CloseKeeps(Set(s, c, k), c);
  }

  /** A drain task that ends closes the descriptor if the loop dropped the connection meanwhile. */
  lemma DrainEnds(s: Server, c: Cid, k: Conn)
    requires Protocol(s) && c in s.conns && s.conns[c].busy && !s.conns[c].drain.Owed?
    requires k == s.conns[c].(busy := false, pending := [], drain := NoTask)
    ensures Protocol(if k.closed then Close(Set(s, c, k), c) else Set(s, c, k))
  {
    if k.closed {
      hide ConnOk, Close;
      DrainCloses(s, c, k);
    } else {
      assert ConnOk(s, c);
      SetKeeps(s, c, k, s.loop);
      assert Set(s, c, k).(loop := s.loop) == Set(s, c, k);
    }
  }

  lemma FetchKeeps(s: Server, c: Cid)
    requires Protocol(s) && Enabled(s, Fetch(c))
    ensures Protocol(Do(s, Fetch(c)))
  {
    assert ConnOk(s, c);
    var k := s.conns[c];
    if |k.pending| == 0 {
      assert k.pending == [];
      DrainEnds(s, c, FetchStep(k));
    } else {
      SetKeeps(s, c, FetchStep(k), s.loop);
    }
  }

  lemma ReplyKeeps(s: Server, c: Cid, ok: bool)
    requires Protocol(s) && Enabled(s, Reply(c, ok))
    ensures Protocol(Do(s, Reply(c, ok)))
  {
    assert ConnOk(s, c);
    SetKeeps(s, c, Do(s, Reply(c, ok)).conns[c], s.loop);
  }

  lemma GiveUpKeeps(s: Server, c: Cid)
    requires Protocol(s) && Enabled(s, GiveUp(c))
    ensures Protocol(Do(s, GiveUp(c)))
  {
    assert ConnOk(s, c);
    DrainEnds(s, c, s.conns[c].(busy := false, pending := [], drain := NoTask));
  }

  lemma ProtocolKeeps(s: Server, step: Step)
    requires Protocol(s) && Enabled(s, step)
    ensures Protocol(Do(s, step))
  {
    hide Enabled, Do, ConnOk;
    match step
    case Accept(c, fd) => AcceptKeeps(s, c, fd);
    case Read(fd, bytes, peerClosed) => ReadKeeps(s, fd, bytes, peerClosed);
    case NextLine => NextLineKeeps(s);
    case Dispatch => DispatchKeeps(s);
    case Finish => FinishKeeps(s);
    case Unlist => UnlistKeeps(s);
    case Drop => DropKeeps(s);
    case TakeTask(c) => TakeTaskKeeps(s, c);
    case Fetch(c) => FetchKeeps(s, c);
    case Reply(c, ok) => ReplyKeeps(s, c, ok);
    case GiveUp(c) => GiveUpKeeps(s, c);
  }

  // ---- The record part: what each connection has done ----

  /** Text after a finished line starts lines of its own. */
  lemma {:induction false} LinesConcat(text: string, rest: string)
    requires text == "" || text[|text| - 1] == '\n'
    ensures Lines(text + rest) == Lines(text) + Lines(rest)
    decreases |text|
  {
    hide Clean, FindNewline;
    if text == "" {
      assert text + rest == rest;
    } else {
      assert '\n' in text;
      var i := FindNewline(text).value;
      LinesConcat(text[i + 1..], rest);
      FirstLine(text, rest, i);
      hide Lines;
      var first, more := Clean(text[..i]), Lines(text[i + 1..]);
      assert first + more + Lines(rest) == first + (more + Lines(rest));
    }
  }

  /** The first line of a text is that of every longer one. */
  lemma FirstLine(text: string, rest: string, i: nat)
    requires FindNewline(text) == Some(i)
    ensures Lines(text + rest) == Clean(text[..i]) + Lines(text[i + 1..] + rest)
  {
    hide Clean, FindNewline;
    var whole := text + rest;
    assert whole[..i] == text[..i] && whole[i + 1..] == text[i + 1..] + rest;
    FirstNewline(whole, i);
  }

  lemma OneLine(line: string)
    requires '\n' !in line
    ensures Lines(line + "\n") == Clean(line)
  {
    hide Clean, FindNewline;
    var last := line + "\n";
    assert last[..|line|] == line && last[|line| + 1..] == "";
    FirstNewline(last, |line|);
  }

  /** Appending a finished line appends what it says. */
  lemma LinesAppend(text: string, line: string)
    requires '\n' !in line && (text == "" || text[|text| - 1] == '\n')
    ensures Lines(text + line + "\n") == Lines(text) + Clean(line)
  {
    hide Lines, Clean;
    assert text + line + "\n" == text + (line + "\n");
    LinesConcat(text, line + "\n");
    OneLine(line);
  }

  lemma {:induction false} FirstNewline(s: string, i: nat)
    requires i < |s| && s[i] == '\n' && '\n' !in s[..i]
    ensures FindNewline(s) == Some(i)
  {
    if i > 0 {
      assert s[0] in s[..i];
      assert s[..i] == [s[0]] + s[1..][..i - 1];
      FirstNewline(s[1..], i - 1);
    }
  }

  /** A line taken out of the inbox is the next line received; only the queue has yet to hear of it. */
  lemma TakeLines(k: Conn, i: nat)
    requires LinesOk(k) && FindNewline(k.inbox) == Some(i)
    ensures var k' := TakeLine(k, i);
      && k'.received == k'.consumed + k'.inbox && |k'.consumed| > 0 && k'.consumed[|k'.consumed| - 1] == '\n'
      && Lines(k'.consumed) == Lines(k.consumed) + Clean(k.inbox[..i])
  {
    hide Lines, Clean, FindNewline;
    LinesAppend(k.consumed, k.inbox[..i]);
    CutInbox(k.consumed, k.inbox, i);
  }

  lemma SplitLines(k: Conn, shouldDispatch: bool, peerClosed: bool, c: Cid)
    requires LinesOk(k) && !k.over
    ensures LinesOk(SplitStep(k, shouldDispatch, peerClosed, c).0)
  {
    hide Lines, Strip, FindNewline;
    match FindNewline(k.inbox)
    case None =>
    case Some(i) => TakeLines(k, i);
  }

  lemma CutInbox(consumed: string, inbox: string, i: nat)
    requires i < |inbox| && inbox[i] == '\n'
    ensures consumed + inbox[..i] + "\n" == consumed + inbox[..i + 1]
    ensures consumed + inbox == consumed + inbox[..i + 1] + inbox[i + 1..]
  {
  }

  /** Fields that the history does not mention may change. */
  lemma SameHistory(k: Conn, k': Conn)
    requires HistoryOk(k)
    requires k'.drain == k.drain || (!k.drain.Executing? && !k'.drain.Executing? && !k'.drain.Failing?)
    requires k' == k.(fd := k'.fd, inbox := k'.inbox, busy := k'.busy, closed := k'.closed, drain := k'.drain,
                      received := k'.received, consumed := k'.consumed, over := k'.over, closes := k'.closes)
    ensures HistoryOk(k')
  {
  }

  lemma QueueHistory(k: Conn, line: string)
    requires HistoryOk(k) && (k.busy <==> !k.drain.NoTask?)
    ensures HistoryOk(QueueLine(k, line))
  {
    hide Increasing;
    var k' := QueueLine(k, line);
    var done := Gone(k) - InHand(k);
    assert k'.queued[Gone(k)..] == k.queued[Gone(k)..] + [line];
    assert k'.queued[..done] == k.queued[..done];
  }

  lemma SplitHistory(k: Conn, shouldDispatch: bool, peerClosed: bool, c: Cid)
    requires HistoryOk(k) && (k.busy <==> !k.drain.NoTask?)
    ensures HistoryOk(SplitStep(k, shouldDispatch, peerClosed, c).0)
  {
    hide FindNewline, Strip, HistoryOk, QueueLine;
    match FindNewline(k.inbox)
    case None =>
    case Some(i) =>
      var line, k' := Strip(k.inbox[..i]), TakeLine(k, i);
      SameHistory(k, k');
      SameHistory(k, k'.(over := true));
      hide TakeLine;
      QueueHistory(k', line);
  }

  lemma FetchRecord(k: Conn)
    requires Record(k) && k.drain.Fetching?
    ensures Record(FetchStep(k))
  {
    hide Lines;
    var k' := FetchStep(k);
    if |k.pending| > 0 {
      assert k.pending[1..] == k.queued[Gone(k) + 1..];
      assert k.pending[0] == k.queued[Gone(k)];
    }
  }

  lemma ReplyRecord(k: Conn, k': Conn, ok: bool)
    requires Record(k) && k.drain.Executing?
    requires k' == k.(executed := k.executed + [k.drain.query],
                          positions := k.positions + [|k.queued| - |k.pending| - 1],
                      lost := k.lost || !ok, drain := if ok then Fetching else Failing)
    ensures Record(k')
  {
    hide Lines;
    assert Gone(k') == Gone(k);
    if !k'.lost {
      assert k.queued[..Gone(k)] == k.queued[..Gone(k) - 1] + [k.queued[Gone(k) - 1]];
    }
  }

  lemma GiveUpRecord(k: Conn)
    requires Record(k) && k.drain.Failing?
    ensures Record(k.(busy := false, pending := [], drain := NoTask))
  {
    hide Lines;
  }

  lemma CloseRecord(k: Conn)
    requires Record(k)
    ensures Record(k.(closes := k.closes + 1)) && Record(k.(closed := true))
    ensures Record(k.(closed := true, closes := k.closes + 1))
  {
    SameHistory(k, k.(closes := k.closes + 1));
    SameHistory(k, k.(closed := true));
    SameHistory(k, k.(closed := true, closes := k.closes + 1));
    hide Lines, HistoryOk;
  }

  lemma NextLineRecord(s: Server, c: Cid)
    requires Enabled(s, NextLine) && c in s.conns && ConnOk(s, c) && Record(At(s, c))
    ensures Record(At(Do(s, NextLine), c))
  {
    hide HistoryOk, LinesOk, SplitStep;
    if c == s.loop.c {
      SplitHistory(At(s, c), s.loop.shouldDispatch, s.loop.peerClosed, c);
      SplitLines(At(s, c), s.loop.shouldDispatch, s.loop.peerClosed, c);
    }
  }

  lemma DropRecord(s: Server, c: Cid)
    requires Enabled(s, Drop) && c in s.conns && Record(At(s, c))
    ensures Record(At(Do(s, Drop), c))
  {
    hide Record;
    CloseRecord(At(s, c));
  }

  lemma ReadKeepsRecord(s: Server, step: Step, c: Cid)
    requires Enabled(s, step) && step.Read? && c in s.conns && Record(At(s, c))
    ensures Record(At(Do(s, step), c))
  {
    hide Record;
    if c == s.listed[step.fd] {
      ReadRecord(At(s, c), step.bytes);
    }
  }

  lemma DispatchRecord(s: Server, c: Cid)
    requires Enabled(s, Dispatch) && c in s.conns && Record(At(s, c))
    ensures Record(At(Do(s, Dispatch), c))
  {
    hide Record;
    if c == s.loop.c && At(s, c).drain.Owed? {
      DrainRecord(At(s, c), Queued);
    }
  }

  lemma LoopAddsNone(s: Server, step: Step, c: Cid)
    requires Enabled(s, step) && TablesOk(s)
    requires !step.Accept? && !step.TakeTask? && !step.Fetch? && !step.Reply? && !step.GiveUp?
    ensures c in Do(s, step).conns ==> c in s.conns
  {
    hide SplitStep;
  }

  lemma WorkerAddsNone(s: Server, step: Step, c: Cid)
    requires Enabled(s, step) && (step.TakeTask? || step.Fetch? || step.Reply? || step.GiveUp?)
    ensures c in Do(s, step).conns ==> c in s.conns
  {
    hide FetchStep;
  }

  lemma AcceptRecord(s: Server, step: Step, c: Cid)
    requires Enabled(s, step) && step.Accept? && (c in s.conns ==> Record(At(s, c)))
    ensures c in Do(s, step).conns ==> Record(At(Do(s, step), c))
  {
    hide Record;
    if c == step.c {
      FreshRecord(step.fd);
    }
  }

  lemma LoopRecordKeeps(s: Server, step: Step, c: Cid)
    requires Enabled(s, step) && !step.Accept? && !step.TakeTask? && !step.Fetch? && !step.Reply? && !step.GiveUp?
    requires c in s.conns && ConnOk(s, c) && Record(At(s, c))
    ensures Record(At(Do(s, step), c))
  {
    hide Record, ConnOk, SplitStep;
    match step {
      case Read(_, _, _) => ReadKeepsRecord(s, step, c);
      case NextLine => NextLineRecord(s, c);
      case Dispatch => DispatchRecord(s, c);
      case Drop => DropRecord(s, c);
      case _ =>
    }
  }

  lemma FreshRecord(fd: Fd)
    ensures Record(BLANK.(fd := fd))
  {
  }

  lemma ReadRecord(k: Conn, bytes: string)
    requires Record(k)
    ensures Record(k.(inbox := k.inbox + bytes, received := k.received + bytes))
  {
    hide Lines;
    assert k.consumed + k.inbox + bytes == k.consumed + (k.inbox + bytes);
  }

  lemma DrainRecord(k: Conn, drain: Drain)
    requires Record(k) && !k.drain.Executing? && !drain.Executing? && !drain.Failing?
    ensures Record(k.(drain := drain))
  {
    hide Lines;
  }

  lemma FetchKeepsRecord(s: Server, c: Cid)
    requires Enabled(s, Fetch(c)) && Record(At(s, c))
    ensures Record(At(Do(s, Fetch(c)), c))
  {
    hide Record, FetchStep;
    FetchRecord(At(s, c));
    CloseRecord(FetchStep(At(s, c)));
  }

  lemma ReplyKeepsRecord(s: Server, c: Cid, ok: bool)
    requires Enabled(s, Reply(c, ok)) && Record(At(s, c))
    ensures Record(At(Do(s, Reply(c, ok)), c))
  {
    hide Record;
    var k := At(s, c);
    if k.fd in s.open && s.open[k.fd] == c {
      ReplyRecord(k, At(Do(s, Reply(c, ok)), c), ok);
    }
  }

  lemma GiveUpKeepsRecord(s: Server, c: Cid)
    requires Enabled(s, GiveUp(c)) && Record(At(s, c))
    ensures Record(At(Do(s, GiveUp(c)), c))
  {
    hide Record;
    GiveUpRecord(At(s, c));
    CloseRecord(At(s, c).(busy := false, pending := [], drain := NoTask));
  }

  /** A worker touches the connection it serves and no other. */
  lemma WorkerTouchesOne(s: Server, step: Step, c: Cid)
    requires Enabled(s, step) && (step.TakeTask? || step.Fetch? || step.Reply? || step.GiveUp?) && c != step.c
    ensures At(Do(s, step), c) == At(s, c)
  {
    hide FetchStep;
  }

  lemma WorkerRecordKeeps(s: Server, step: Step, c: Cid)
    requires Enabled(s, step) && (step.TakeTask? || step.Fetch? || step.Reply? || step.GiveUp?) && Record(At(s, c))
    ensures Record(At(Do(s, step), c))
  {
    hide Record;
    if c != step.c {
      WorkerTouchesOne(s, step, c);
    } else {
      match step {
        case TakeTask(_) => DrainRecord(At(s, c), Fetching);
        case Fetch(_) => FetchKeepsRecord(s, c);
        case Reply(_, ok) => ReplyKeepsRecord(s, c, ok);
        case GiveUp(_) => GiveUpKeepsRecord(s, c);
      }
    }
  }

  lemma StepKeeps(s: Server, step: Step)
    requires Inv(s) && Enabled(s, step)
    ensures Inv(Do(s, step))
  {
    hide Enabled, Do, ConnOk, Record;
    ProtocolKeeps(s, step);
    forall c | c in Do(s, step).conns ensures Record(Do(s, step).conns[c]) {
      if step.Accept? {
        AcceptRecord(s, step, c);
      } else {
        if step.TakeTask? || step.Fetch? || step.Reply? || step.GiveUp? {
          WorkerAddsNone(s, step, c);
          WorkerRecordKeeps(s, step, c);
        } else {
          LoopAddsNone(s, step, c);
          LoopRecordKeeps(s, step, c);
        }
      }
    }
  }

  // ---- Whole runs ----

  ghost predicate IsRun(states: seq<Server>, steps: seq<Step>) {
    && |states| == |steps| + 1 && Init(states[0])
    && forall i :: 0 <= i < |steps| ==> Enabled(states[i], steps[i]) && states[i + 1] == Do(states[i], steps[i])
  }

  lemma InitInv(s: Server)
    requires Init(s)
    ensures Inv(s)
  {
  }

  lemma {:induction false} RunInv(states: seq<Server>, steps: seq<Step>, n: nat)
    requires IsRun(states, steps) && n <= |steps|
    ensures Inv(states[n])
  {
    hide Do, Enabled, Init, Inv;
    if n == 0 {
      InitInv(states[0]);
    } else {
      RunInv(states, steps, n - 1);
      assert states[n - 1 + 1] == Do(states[n - 1], steps[n - 1]);
      StepKeeps(states[n - 1], steps[n - 1]);
    }
  }

  /** In every run no drain task is started while the connection has one, and it is busy exactly when its one task is
      owed, queued or running; its queue is bounded. */
  lemma OneDrainTask(states: seq<Server>, steps: seq<Step>, n: nat, c: Cid)
    requires IsRun(states, steps) && n <= |steps| && c in states[n].conns
    ensures var k := states[n].conns[c];
      && !states[n].faulted
      && (k.busy <==> !k.drain.NoTask?) && |k.pending| <= 1024 && (k.pending != [] ==> k.busy)
  {
    hide Do, Enabled, Init;
    RunInv(states, steps, n);
    assert ConnOk(states[n], c);
  }

  /** In every run replies go out in arrival order: executed queries are queued lines at increasing positions,
      and all queued lines up to the one in hand when no write has failed. */
  lemma ExecutedInOrder(states: seq<Server>, steps: seq<Step>, n: nat, c: Cid)
    requires IsRun(states, steps) && n <= |steps| && c in states[n].conns
    ensures var k := states[n].conns[c];
      && |k.positions| == |k.executed| && Increasing(k.positions)
      && (forall i :: 0 <= i < |k.executed| ==>
                0 <= k.positions[i] < |k.queued| && k.executed[i] == k.queued[k.positions[i]])
      && (!FailedBefore(steps, n, c) ==> k.executed <= k.queued)
  {
    hide Do, Enabled, Init;
    RunInv(states, steps, n);
    LostExactly(states, steps, n, c);
    hide IsRun, Protocol, LinesOk;
    assert Record(states[n].conns[c]);
  }

  /** What is received, waits in the inbox and is marked over or lost is the same in both. */
  predicate SameWire(k: Conn, k': Conn) {
    k'.received == k.received && k'.inbox == k.inbox && k'.over == k.over && k'.lost == k.lost
  }

  lemma DropKeepsWire(s: Server, c: Cid)
    requires Enabled(s, Drop)
    ensures SameWire(At(s, c), At(Do(s, Drop), c))
  {
    hide Close;
    CloseKeepsWire(Set(s, s.loop.c, At(s, s.loop.c).(closed := true)).(loop := Waiting), s.loop.c, c);
  }

  lemma CloseKeepsWire(s: Server, d: Cid, c: Cid)
    ensures SameWire(At(s, c), At(Close(s, d), c))
  {
  }

  /** What a step on the loop's side leaves alone, a read and a turn of the splitting loop aside. */
  lemma LoopKeepsWire(s: Server, step: Step, c: Cid)
    requires Enabled(s, step) && (step.Accept? || step.Dispatch? || step.Finish? || step.Unlist? || step.Drop?)
    ensures SameWire(At(s, c), At(Do(s, step), c))
  {
    if step.Drop? {
      DropKeepsWire(s, c);
    } else if step.Accept? {
      assert At(Do(s, step), c) == At(s, c) || (c == step.c && At(s, c) == BLANK);
    }
  }

  lemma WorkerKeepsOwnWire(s: Server, step: Step)
    requires Enabled(s, step) && (step.TakeTask? || step.Fetch? || step.Reply? || step.GiveUp?)
    ensures Do(s, step).loop == s.loop
    ensures var k, k' := At(s, step.c), At(Do(s, step), step.c);
      k'.received == k.received && k'.inbox == k.inbox && k'.over == k.over
  {
    hide FetchStep;
    FetchKeepsWire(At(s, step.c));
  }

  lemma WorkerKeepsWire(s: Server, step: Step, c: Cid)
    requires Enabled(s, step) && (step.TakeTask? || step.Fetch? || step.Reply? || step.GiveUp?)
    ensures Do(s, step).loop == s.loop
    ensures var k, k' := At(s, c), At(Do(s, step), c);
      k'.received == k.received && k'.inbox == k.inbox && k'.over == k.over
  {
    hide Do, Enabled;
    WorkerKeepsOwnWire(s, step);
    if c != step.c {
      WorkerTouchesOne(s, step, c);
    }
  }

  lemma WorkerLost(s: Server, step: Step, c: Cid)
    requires Enabled(s, step) && (step.TakeTask? || step.Fetch? || step.GiveUp?)
    ensures At(Do(s, step), c).lost == At(s, c).lost
  {
    hide FetchStep;
    FetchKeepsWire(At(s, step.c));
  }

  lemma ReadChanges(s: Server, step: Step, c: Cid)
    requires Protocol(s) && Enabled(s, step) && step.Read?
    ensures var k, k' := At(s, c), At(Do(s, step), c);
      && k'.lost == k.lost && k'.over == k.over
      && k'.received == if s.listed[step.fd] == c then k.received + step.bytes else k.received
  {
    ReadOwned(s, step.fd);
    hide ConnOk;
  }

  lemma NextLineChanges(s: Server, c: Cid)
    requires Enabled(s, NextLine)
    ensures var k, k' := At(s, c), At(Do(s, NextLine), c);
      k'.lost == k.lost && k'.received == k.received && (c != s.loop.c ==> k' == k)
  {
    hide SplitStep;
    SplitKeeps(At(s, s.loop.c), s.loop);
  }

  lemma LostStep(s: Server, step: Step, c: Cid)
    requires Protocol(s) && Enabled(s, step)
    ensures At(Do(s, step), c).lost <==> At(s, c).lost || step == Reply(c, false)
  {
    hide Do, Enabled, Protocol;
    match step {
      case Read(_, _, _) => ReadChanges(s, step, c);
      case NextLine => NextLineChanges(s, c);
      case TakeTask(_) => WorkerLost(s, step, c);
      case Fetch(_) => WorkerLost(s, step, c);
      case GiveUp(_) => WorkerLost(s, step, c);
      case Reply(d, _) =>
        ReplyLost(s, step);
        if c != d {
          WorkerTouchesOne(s, step, c);
        }
      case _ => LoopKeepsWire(s, step, c);
    }
  }

  /** A turn of the splitting loop leaves the wire's record and the failed writes alone. */
  lemma SplitKeeps(k: Conn, loop: Loop)
    requires loop.Splitting?
    ensures var k' := SplitStep(k, loop.shouldDispatch, loop.peerClosed, loop.c).0;
      k'.lost == k.lost && k'.received == k.received
  {
    hide FindNewline, Strip;
  }

  lemma FetchKeepsWire(k: Conn)
    ensures var k' := FetchStep(k);
      k'.lost == k.lost && k'.received == k.received && k'.over == k.over && k'.inbox == k.inbox
  {
  }

  lemma ReplyLost(s: Server, step: Step)
    requires Protocol(s) && step.Reply? && Enabled(s, step)
    ensures At(Do(s, step), step.c).lost <==> At(s, step.c).lost || !step.ok
  {
    assert ConnOk(s, step.c);
    assert Owns(s, step.c);
    hide ConnOk;
  }

  lemma BlankAtFirst(s: Server, c: Cid)
    requires Init(s)
    ensures At(s, c) == BLANK
  {
  }

  ghost predicate FailedBefore(steps: seq<Step>, n: nat, c: Cid)
    requires n <= |steps|
  {
    exists i :: 0 <= i < n && steps[i] == Reply(c, false)
  }

  lemma FailedNext(steps: seq<Step>, n: nat, c: Cid)
    requires 0 < n <= |steps|
    ensures FailedBefore(steps, n, c) <==> FailedBefore(steps, n - 1, c) || steps[n - 1] == Reply(c, false)
  {
  }

  /** In every run a connection counts as having lost a write exactly when one of its replies failed. */
  lemma {:induction false} LostExactly(states: seq<Server>, steps: seq<Step>, n: nat, c: Cid)
    requires IsRun(states, steps) && n <= |steps|
    ensures At(states[n], c).lost <==> FailedBefore(steps, n, c)
  {
    hide Do, Enabled, Init, Protocol, Record, FailedBefore, At;
    if n == 0 {
      BlankAtFirst(states[0], c);
      assert !FailedBefore(steps, 0, c) by { NoneFailed(steps, c); }
    } else {
      LostExactly(states, steps, n - 1, c);
      RunInv(states, steps, n - 1);
      assert states[n - 1 + 1] == Do(states[n - 1], steps[n - 1]);
      LostStep(states[n - 1], steps[n - 1], c);
      FailedNext(steps, n, c);
    }
  }

  lemma NoneFailed(steps: seq<Step>, c: Cid)
    ensures !FailedBefore(steps, 0, c)
  {
  }

  /** In every run, and however the bytes were cut into reads, the lines received are the lines queued, then the one
      line that hit a limit if any did, then the lines still in the inbox; after a limit nothing more is read. */
  lemma QueuedAreLines(states: seq<Server>, steps: seq<Step>, n: nat, c: Cid)
    requires IsRun(states, steps) && n <= |steps| && c in states[n].conns
    ensures var s := states[n]; var k := s.conns[c];
      && k.queued <= Lines(k.received)
      && |Lines(k.received)| == |k.queued| + (if k.over then 1 else 0) + |Lines(k.inbox)|
      && (!k.over ==> Lines(k.received) == k.queued + Lines(k.inbox))
      && (k.over ==> !Listed(s, c) || (s.loop.After? && s.loop.c == c && s.loop.drop))
  {
    hide Do, Enabled, Init, ConnOk, Record;
    RunInv(states, steps, n);
    assert ConnOk(states[n], c);
    QueuedThenInbox(states[n].conns[c]);
    OverIsLast(states[n], c);
  }

  lemma OverIsLast(s: Server, c: Cid)
    requires c in s.conns && ConnOk(s, c)
    ensures OverOk(s, c)
  {
  }

  lemma QueuedThenInbox(k: Conn)
    requires Record(k)
    ensures k.queued <= Lines(k.received)
    ensures |Lines(k.received)| == |k.queued| + (if k.over then 1 else 0) + |Lines(k.inbox)|
    ensures !k.over ==> Lines(k.received) == k.queued + Lines(k.inbox)
  {
    hide Lines, HistoryOk;
    LinesConcat(k.consumed, k.inbox);
  }

  /** In every run a descriptor is closed at most once, only after the connection left the map and its last reply,
      and no reply or close ever reaches a descriptor that belongs to another connection. */
  lemma ClosedOnceAfterLastReply(states: seq<Server>, steps: seq<Step>, n: nat, c: Cid)
    requires IsRun(states, steps) && n <= |steps| && c in states[n].conns
    ensures var s := states[n]; var k := s.conns[c];
      && !s.faulted
      && k.closes <= 1
      && (k.closes == 1 <==> k.closed && !k.busy)
      && (k.closes == 1 ==> !Listed(s, c) && !Owns(s, c) && k.drain.NoTask?)
      && (k.closes == 0 ==> Owns(s, c))
  {
    hide Do, Enabled, Init;
    RunInv(states, steps, n);
    assert ConnOk(states[n], c);
  }

  // ---- A dropped connection is closed after boundedly many worker steps ----

  /** The most worker steps a connection's drain task has still to take if no more lines are queued. */
  function DrainWork(k: Conn): nat {
    match k.drain
    case NoTask => 0
    case Owed => 2 * |k.pending| + 2
    case Queued => 2 * |k.pending| + 2
    case Fetching => 2 * |k.pending| + 1
    case Executing(_) => 2 * |k.pending| + 2
    case Failing => 1
  }

  predicate IsWorkerStep(step: Step, c: Cid) {
    (step.TakeTask? || step.Fetch? || step.Reply? || step.GiveUp?) && step.c == c
  }

  function WorkerSteps(steps: seq<Step>, c: Cid): nat {
    if |steps| == 0 then 0
    else WorkerSteps(steps[..|steps| - 1], c) + if IsWorkerStep(steps[|steps| - 1], c) then 1 else 0
  }

  /** The event loop has done with a connection it dropped. */
  lemma LoopLeavesDropped(s: Server, step: Step, c: Cid)
    requires Enabled(s, step) && !step.TakeTask? && !step.Fetch? && !step.Reply? && !step.GiveUp?
    requires TablesOk(s) && c in s.conns && ConnOk(s, c) && s.conns[c].closed
    ensures At(Do(s, step), c) == At(s, c)
  {
    assert !Listed(s, c) && !Handling(s.loop, c) && s.loop != Dropping(c);
    hide ConnOk, SplitStep;
  }

  lemma WorkerUsesWork(s: Server, step: Step, c: Cid)
    requires Enabled(s, step) && IsWorkerStep(step, c) && c in s.conns && ConnOk(s, c) && s.conns[c].closed
    ensures At(Do(s, step), c).closed && DrainWork(At(Do(s, step), c)) < DrainWork(At(s, c))
  {
    assert !s.conns[c].drain.NoTask? ==> Owns(s, c);
    hide ConnOk;
  }

  lemma DroppedStep(s: Server, step: Step, c: Cid)
    requires Protocol(s) && Enabled(s, step) && At(s, c).closed
    ensures At(Do(s, step), c).closed
    ensures DrainWork(At(Do(s, step), c)) + (if IsWorkerStep(step, c) then 1 else 0) <= DrainWork(At(s, c))
  {
    hide Enabled, Do, ConnOk, DrainWork;
    if IsWorkerStep(step, c) {
      WorkerUsesWork(s, step, c);
    } else if step.TakeTask? || step.Fetch? || step.Reply? || step.GiveUp? {
      WorkerTouchesOne(s, step, c);
    } else {
      LoopLeavesDropped(s, step, c);
    }
  }

  lemma {:induction false} DroppedBound(states: seq<Server>, steps: seq<Step>, m: nat, n: nat, c: Cid)
    requires IsRun(states, steps) && m <= n <= |steps| && At(states[m], c).closed
    ensures At(states[n], c).closed
    ensures WorkerSteps(steps[m..n], c) + DrainWork(At(states[n], c)) <= DrainWork(At(states[m], c))
  {
    hide Do, Enabled, Init, DrainWork, IsWorkerStep, Protocol, Record;
    if n > m {
      DroppedBound(states, steps, m, n - 1, c);
      RunInv(states, steps, n - 1);
      assert states[n - 1 + 1] == Do(states[n - 1], steps[n - 1]);
      DroppedStep(states[n - 1], steps[n - 1], c);
      assert steps[m..n][..n - m - 1] == steps[m..n - 1];
    }
  }

  lemma DroppedWork(s: Server, c: Cid)
    requires Protocol(s) && At(s, c).closed
    ensures DrainWork(At(s, c)) <= 2 * MAX_PENDING + 2
    ensures DrainWork(At(s, c)) == 0 <==> At(s, c).closes == 1
    ensures At(s, c).closes == 0 ==>
      Enabled(s, TakeTask(c)) || Enabled(s, Fetch(c)) || Enabled(s, Reply(c, true)) || Enabled(s, GiveUp(c))
  {
    assert ConnOk(s, c);
    hide LegalLine;
  }

  /** In every run, once a connection is dropped its drain task takes at most 2050 more steps: each uses up work and
      nothing adds any, the descriptor is closed exactly when none is left, and until then a step of it is enabled. */
  lemma DroppedIsClosed(states: seq<Server>, steps: seq<Step>, m: nat, n: nat, c: Cid)
    requires IsRun(states, steps) && m <= n <= |steps| && At(states[m], c).closed
    ensures DrainWork(At(states[m], c)) <= 2050
    ensures WorkerSteps(steps[m..n], c) + DrainWork(At(states[n], c)) <= DrainWork(At(states[m], c))
    ensures At(states[n], c).closes == 1 <==> DrainWork(At(states[n], c)) == 0
    ensures At(states[n], c).closes != 1 ==>
      || Enabled(states[n], TakeTask(c)) || Enabled(states[n], Fetch(c))
      || Enabled(states[n], Reply(c, true)) || Enabled(states[n], GiveUp(c))
  {
    DroppedBound(states, steps, m, n, c);
    RunInv(states, steps, m);
    RunInv(states, steps, n);
    hide IsRun, Protocol, Record, Enabled, DrainWork, WorkerSteps;
    DroppedWork(states[m], c);
    DroppedWork(states[n], c);
    ClosedOrNot(states[n], c);
  }

  lemma ClosedOrNot(s: Server, c: Cid)
    requires Protocol(s)
    ensures At(s, c).closes <= 1
  {
    assert c in s.conns ==> ConnOk(s, c);
  }

  // ---- What comes over the wire ----

  /** A line as sent: its text, and whether a carriage return precedes the newline. */
  datatype WireLine = WireLine(text: string, cr: bool)

  predicate Sendable(l: WireLine) {
    '\n' !in l.text && (l.cr || l.text == "" || l.text[|l.text| - 1] != '\r')
  }

  function WireText(l: WireLine): string {
    (if l.cr then l.text + "\r" else l.text) + "\n"
  }

  function Wire(ls: seq<WireLine>): string {
    if |ls| == 0 then "" else WireText(ls[0]) + Wire(ls[1..])
  }

  function NonEmpty(ls: seq<WireLine>): seq<string> {
    if |ls| == 0 then [] else (if ls[0].text == "" then [] else [ls[0].text]) + NonEmpty(ls[1..])
  }

  lemma WireLineReads(l: WireLine)
    requires Sendable(l)
    ensures Lines(WireText(l)) == if l.text == "" then [] else [l.text]
    ensures |WireText(l)| > 0 && WireText(l)[|WireText(l)| - 1] == '\n'
  {
    hide Lines;
    var line := if l.cr then l.text + "\r" else l.text;
    OneLine(line);
    assert Strip(line) == l.text;
  }

  /** The lines of a text are the non-empty lines that were sent, without their line ends. */
  lemma {:induction false} LinesOfWire(ls: seq<WireLine>, rest: string)
    requires (forall i :: 0 <= i < |ls| ==> Sendable(ls[i])) && '\n' !in rest
    ensures Lines(Wire(ls) + rest) == NonEmpty(ls)
    decreases |ls|
  {
    hide Lines, WireText, Sendable;
    if |ls| == 0 {
      assert Wire(ls) + rest == rest;
      NoLines(rest);
    } else {
      var first, more := WireText(ls[0]), Wire(ls[1..]);
      WireLineReads(ls[0]);
      LinesOfWire(ls[1..], rest);
      assert first + more + rest == first + (more + rest);
      LinesConcat(first, more + rest);
    }
  }

  lemma NoLines(rest: string)
    requires '\n' !in rest
    ensures Lines(rest) == []
  {
  }

  /** The bytes the reads up to `n` took off a connection's descriptor. */
  ghost function BytesRead(states: seq<Server>, steps: seq<Step>, n: nat, c: Cid): string
    requires n <= |steps| && n <= |states|
  {
    if n == 0 then ""
    else BytesRead(states, steps, n - 1, c) + BytesFor(states[n - 1], steps[n - 1], c)
  }

  function BytesFor(s: Server, step: Step, c: Cid): string {
    if step.Read? && step.fd in s.listed && s.listed[step.fd] == c then step.bytes else ""
  }

  lemma ReceivedStep(s: Server, step: Step, c: Cid)
    requires Protocol(s) && Enabled(s, step)
    ensures At(Do(s, step), c).received == At(s, c).received + BytesFor(s, step, c)
  {
    assert step.Read? ==> step.fd in s.listed;
    hide Do, Enabled, Protocol;
    assert At(s, c).received + "" == At(s, c).received;
    if step.Read? {
      ReadChanges(s, step, c);
    } else if step.NextLine? {
      NextLineChanges(s, c);
    } else if step.TakeTask? || step.Fetch? || step.Reply? || step.GiveUp? {
      WorkerKeepsWire(s, step, c);
    } else {
      LoopKeepsWire(s, step, c);
    }
  }

  lemma ReadOwned(s: Server, fd: Fd)
    requires Protocol(s) && fd in s.listed
    ensures fd in s.open && s.open[fd] == s.listed[fd]
  {
    assert ConnOk(s, s.listed[fd]);
  }

  /** In every run a connection has received exactly the bytes read from its descriptor, in order. */
  lemma {:induction false} ReceivedIsRead(states: seq<Server>, steps: seq<Step>, n: nat, c: Cid)
    requires IsRun(states, steps) && n <= |steps|
    ensures At(states[n], c).received == BytesRead(states, steps, n, c)
  {
    hide Do, Enabled, Init, Protocol, Record, BytesFor, At;
    if n == 0 {
      BlankAtFirst(states[0], c);
    } else {
      ReceivedIsRead(states, steps, n - 1, c);
      RunInv(states, steps, n - 1);
      assert states[n - 1 + 1] == Do(states[n - 1], steps[n - 1]);
      ReceivedStep(states[n - 1], steps[n - 1], c);
    }
  }

  // ---- When a connection is cut off ----

  /** A turn of the splitting loop hits the limit exactly when it takes a line too long or meets a full queue. */
  lemma SplitHitsLimit(k: Conn, loop: Loop)
    requires loop.Splitting? && StrandOk(loop, loop.c, k) && LinesOk(k) && !k.over
    ensures var k' := SplitStep(k, loop.shouldDispatch, loop.peerClosed, loop.c).0;
      k'.over <==>
        && |Lines(k'.consumed)| == |Lines(k.consumed)| + 1
        && (|Lines(k'.consumed)[|Lines(k.consumed)|]| > 65536 || |k.pending| == 1024)
  {
    hide Lines, Strip, FindNewline;
    match FindNewline(k.inbox)
    case None =>
    case Some(i) => TakeLines(k, i);
  }

  lemma OverStays(s: Server, step: Step, c: Cid)
    requires Protocol(s) && Enabled(s, step) && !(step.NextLine? && s.loop.c == c)
    ensures At(Do(s, step), c).over == At(s, c).over
  {
    hide Do, Protocol;
    if step.Read? {
      ReadChanges(s, step, c);
    } else if step.NextLine? {
      NextLineChanges(s, c);
    } else if step.TakeTask? || step.Fetch? || step.Reply? || step.GiveUp? {
      WorkerKeepsWire(s, step, c);
    } else {
      LoopKeepsWire(s, step, c);
    }
  }

  /** In every run a connection goes over its limit exactly when the loop takes a line of more than 65536 bytes off it,
      or takes a line while 1024 are pending. */
  lemma LimitIsReal(states: seq<Server>, steps: seq<Step>, n: nat, c: Cid)
    requires IsRun(states, steps) && n < |steps|
    ensures var k, k' := At(states[n], c), At(states[n + 1], c);
      if steps[n].NextLine? && states[n].loop.c == c then
        k'.over <==>
          && |Lines(k'.consumed)| == |Lines(k.consumed)| + 1
          && (|Lines(k'.consumed)[|Lines(k.consumed)|]| > 65536 || |k.pending| == 1024)
      else k'.over == k.over
  {
    RunInv(states, steps, n);
    var s, step := states[n], steps[n];
    assert Enabled(s, step) && states[n + 1] == Do(s, step);
    hide IsRun, Lines, SplitStep;
    if step.NextLine? && s.loop.c == c {
      assert ConnOk(s, c) && Record(s.conns[c]);
      SplitHitsLimit(s.conns[c], s.loop);
    } else {
      hide Do, Record;
      OverStays(s, step, c);
    }
  }

  /** Why a connection may be cut off once its input is split: the peer closed, a limit was hit, or an unfinished line
      is already too long. */
  ghost predicate Cause(k: Conn, peerClosed: bool) {
    peerClosed || k.over || ('\n' !in k.inbox && |k.inbox| > 65536)
  }

  /** The loop remembers what its last read said, and then decides by it. */
  ghost predicate LoopTrue(s: Server, peerClosed: bool) {
    match s.loop
    case Splitting(_, _, p) => p == peerClosed
    case After(c, _, drop) => drop <==> Cause(At(s, c), peerClosed)
    case _ => true
  }

  lemma SplitDecides(k: Conn, loop: Loop)
    requires loop.Splitting? && !k.over
    ensures var r := SplitStep(k, loop.shouldDispatch, loop.peerClosed, loop.c);
      match r.1
      case Splitting(c, _, p) => c == loop.c && p == loop.peerClosed
      case After(c, _, drop) => c == loop.c && (drop <==> Cause(r.0, loop.peerClosed))
      case _ => false
  {
    hide FindNewline, Strip, TakeLine, QueueLine;
  }

  lemma NextLineTrue(s: Server, peerClosed: bool)
    requires Protocol(s) && Enabled(s, NextLine) && LoopTrue(s, peerClosed)
    ensures LoopTrue(Do(s, NextLine), peerClosed) && Handling(Do(s, NextLine).loop, s.loop.c)
  {
    var c := s.loop.c;
    assert ConnOk(s, c);
    assert !s.conns[c].over && StrandOk(s.loop, c, s.conns[c]);
    hide ConnOk, SplitStep, Cause;
    SplitDecides(s.conns[c], s.loop);
    hide StrandOk;
  }

  lemma LoopStaysTrue(s: Server, step: Step, peerClosed: bool)
    requires Protocol(s) && Enabled(s, step) && !step.Read? && LoopTrue(s, peerClosed)
    ensures LoopTrue(Do(s, step), peerClosed)
    ensures var loop := Do(s, step).loop; loop.Splitting? || loop.After? ==> Handling(s.loop, loop.c)
  {
    hide ConnOk, SplitStep;
    if step.TakeTask? || step.Fetch? || step.Reply? || step.GiveUp? {
      hide Do;
      WorkerKeepsWire(s, step, if s.loop.Waiting? then 0 else s.loop.c);
    } else if step.NextLine? {
      hide Do;
      NextLineTrue(s, peerClosed);
    }
  }

  /** The read that began what the loop is doing. */
  ghost predicate CameFrom(states: seq<Server>, steps: seq<Step>, n: nat, r: nat) {
    && r < n <= |steps| && n < |states| && !states[n].loop.Waiting?
    && steps[r].Read? && steps[r].fd in states[r].listed && states[r].listed[steps[r].fd] == states[n].loop.c
    && forall j :: r < j < n ==> !steps[j].Read?
  }

  lemma {:induction false} LoopCameFrom(states: seq<Server>, steps: seq<Step>, n: nat) returns (r: nat)
    requires IsRun(states, steps) && n <= |steps| && (states[n].loop.Splitting? || states[n].loop.After?)
    ensures CameFrom(states, steps, n, r) && LoopTrue(states[n], steps[r].peerClosed)
    decreases n
  {
    hide Do, Enabled, Protocol, Record, LoopTrue;
    assert n > 0 && Enabled(states[n - 1], steps[n - 1]) && states[n - 1 + 1] == Do(states[n - 1], steps[n - 1]);
    RunInv(states, steps, n - 1);
    if steps[n - 1].Read? {
      r := n - 1;
      ReadStarts(states[r], steps[r]);
    } else {
      ReadNotNeeded(states[n - 1], steps[n - 1]);
      r := LoopCameFrom(states, steps, n - 1);
      LoopStaysTrue(states[n - 1], steps[n - 1], steps[r].peerClosed);
    }
  }

  lemma ReadStarts(s: Server, step: Step)
    requires Protocol(s) && step.Read? && Enabled(s, step)
    ensures step.fd in s.listed && Do(s, step).loop == Splitting(s.listed[step.fd], false, step.peerClosed)
    ensures LoopTrue(Do(s, step), step.peerClosed)
  {
    ReadOwned(s, step.fd);
    hide ConnOk;
  }

  lemma ReadNotNeeded(s: Server, step: Step)
    requires Protocol(s) && Enabled(s, step) && !step.Read?
    ensures var loop := Do(s, step).loop; loop.Splitting? || loop.After? ==> s.loop.Splitting? || s.loop.After?
  {
    hide ConnOk, SplitStep, FetchStep;
  }

  /** In every run, when the loop has split what it read, it drops the connection exactly when that read saw the peer
      close, a limit was hit, or more than 65536 bytes are left without a newline. */
  lemma DroppedForCause(states: seq<Server>, steps: seq<Step>, n: nat) returns (r: nat)
    requires IsRun(states, steps) && n < |steps| && (steps[n].Finish? || steps[n].Unlist?)
    ensures CameFrom(states, steps, n, r)
    ensures var k := At(states[n], states[n].loop.c);
      steps[n].Unlist? <==> steps[r].peerClosed || k.over || ('\n' !in k.inbox && |k.inbox| > 65536)
  {
    assert Enabled(states[n], steps[n]);
    hide IsRun, CameFrom;
    r := LoopCameFrom(states, steps, n);
  }

  /** In every run a connection leaves the map only by being dropped. */
  lemma LeavesOnlyDropped(states: seq<Server>, steps: seq<Step>, n: nat, c: Cid)
    requires IsRun(states, steps) && n < |steps| && c in states[n].conns && Listed(states[n], c)
    ensures c in states[n + 1].conns
    ensures !Listed(states[n + 1], c) ==> steps[n].Unlist? && states[n].loop.c == c
  {
    RunInv(states, steps, n);
    assert Enabled(states[n], steps[n]) && states[n + 1] == Do(states[n], steps[n]);
    hide IsRun, Record;
    ListedStays(states[n], steps[n], c);
  }

  lemma ListedStays(s: Server, step: Step, c: Cid)
    requires Protocol(s) && Enabled(s, step) && c in s.conns && Listed(s, c)
    ensures c in Do(s, step).conns && (!(step.Unlist? && s.loop.c == c) ==> Listed(Do(s, step), c))
  {
    if step.TakeTask? || step.Fetch? || step.Reply? || step.GiveUp? {
      WorkerKeepsListed(s, step, c);
    } else if step.Unlist? && s.loop.c != c {
      assert Do(s, step).conns == s.conns;
      assert ConnOk(s, s.loop.c);
      assert Listed(s, s.loop.c);
      hide ConnOk, Do;
      UnlistView(s, c);
    } else {
      LoopKeepsListed(s, step, c);
    }
  }

  lemma WorkerKeepsListed(s: Server, step: Step, c: Cid)
    requires Enabled(s, step) && c in s.conns && Listed(s, c)
    requires step.TakeTask? || step.Fetch? || step.Reply? || step.GiveUp?
    ensures c in Do(s, step).conns && Listed(Do(s, step), c)
  {
    hide FetchStep;
    FetchKeepsFd(At(s, step.c));
  }

  lemma LoopKeepsListed(s: Server, step: Step, c: Cid)
    requires Enabled(s, step) && c in s.conns && Listed(s, c)
    requires !step.TakeTask? && !step.Fetch? && !step.Reply? && !step.GiveUp? && (step.Unlist? ==> s.loop.c == c)
    ensures c in Do(s, step).conns && (!step.Unlist? ==> Listed(Do(s, step), c))
  {
    hide SplitStep;
    if step.NextLine? {
      SplitKeepsFd(At(s, s.loop.c), s.loop);
    }
  }

  lemma SplitKeepsFd(k: Conn, loop: Loop)
    requires loop.Splitting?
    ensures SplitStep(k, loop.shouldDispatch, loop.peerClosed, loop.c).0.fd == k.fd
  {
    hide FindNewline, Strip;
  }

  lemma FetchKeepsFd(k: Conn)
    ensures FetchStep(k).fd == k.fd
  {
  }
}
