/**
 The edge-triggered TCP server: accept and read loops that drain a descriptor until EAGAIN, while
 clients keep connecting and sending.
 */
module EpollServer {
  import opened Sequences

  const READ_BUF := 4096
  const MAX_EVENTS := 100

  type Packet = seq<bv8>

  /** The network and the kernel.  Connections are numbered; a connection that is accepted gets a
      descriptor, and descriptor numbers are reused after a close.  What clients will do is finite. */
  datatype Net = Net(
    coming: seq<nat>,          // connections that will still be made
    backlog: seq<nat>,         // connections not accepted yet
    open: map<nat, nat>,       // the connection behind each open descriptor
    registered: set<nat>,      // descriptors in the epoll instance
    edges: set<nat>,           // descriptors with a pending edge
    unread: seq<seq<bv8>>,     // by connection: bytes that arrived and were not read
    future: seq<seq<bv8>>,     // by connection: bytes still to arrive
    mishaps: nat)              // how often accept may still fail for other reasons than EAGAIN

  datatype ReadResult = Data(chunk: Packet) | ReadAgain | Eof | ReadError
  datatype WriteResult = Written | WriteAgain | WriteError
  datatype AcceptResult = NewFd(fd: nat, id: nat) | AcceptAgain | AcceptError
  datatype Kind = ErrorOrHangup | PeerClosed | Readable

  type Event = (nat, Kind)

  /** A system call, with what it returned. */
  datatype Call =
    | WaitCall(events: seq<Event>)
    | AcceptCall(accepted: AcceptResult)
    | PeerCall(fd: nat, ok: bool) | NonBlockCall(fd: nat, ok: bool) | AddCall(fd: nat, ok: bool)
    | ReadCall(fd: nat, got: ReadResult) | WriteCall(fd: nat, data: Packet, outcome: WriteResult)
    | CloseCall(fd: nat)

  /** The connection behind each open descriptor, and the descriptors in the epoll instance. */
  datatype Book = Book(open: map<nat, nat>, registered: set<nat>)

  /** What a call changes in that. */
  function Noted(b: Book, c: Call): Book {
    match c
    case AcceptCall(NewFd(fd, id)) => b.(open := b.open[fd := id])
    case AddCall(fd, ok) => if ok then b.(registered := b.registered + {fd}) else b
    case CloseCall(fd) => Book(b.open - {fd}, b.registered - {fd})
    case _ => b
  }

  function AllNoted(b: Book, calls: seq<Call>): Book {
    if calls == [] then b else Noted(AllNoted(b, calls[..|calls| - 1]), calls[|calls| - 1])
  }

  lemma NotedSnoc(b: Book, calls: seq<Call>, c: Call)
    ensures AllNoted(b, calls + [c]) == Noted(AllNoted(b, calls), c)
  {
    assert (calls + [c])[..|calls|] == calls;
  }

  // ----- what the handlers do, call by call

  /** What became of one call of `accept`. */
  datatype Fate =
    | Failed
    | NoPeer(fd: nat, id: nat)        // its address could not be had
    | StaysBlocking(fd: nat, id: nat) // it could not be made non-blocking
    | NotAdded(fd: nat, id: nat)      // epoll did not take it
    | Watched(fd: nat, id: nat)

  function AfterAccept(f: Fate): seq<Call> {
    match f
    case Failed => []
    case NoPeer(fd, id) => [PeerCall(fd, false)]
    case StaysBlocking(fd, id) => [PeerCall(fd, true), NonBlockCall(fd, false), CloseCall(fd)]
    case NotAdded(fd, id) => [PeerCall(fd, true), NonBlockCall(fd, true), AddCall(fd, false), CloseCall(fd)]
    case Watched(fd, id) => [PeerCall(fd, true), NonBlockCall(fd, true), AddCall(fd, true)]
  }

  /** One turn of the accept loop. */
  function AcceptRound(f: Fate): seq<Call> {
    [AcceptCall(if f.Failed? then AcceptError else NewFd(f.fd, f.id))] + AfterAccept(f)
  }

  function AcceptRounds(fates: seq<Fate>): seq<Call> {
    if fates == [] then [] else AcceptRounds(fates[..|fates| - 1]) + AcceptRound(fates[|fates| - 1])
  }

  /** The connections that were accepted, in order. */
  function Ids(fates: seq<Fate>): seq<nat> {
    if fates == [] then []
    else
      var f := fates[|fates| - 1];
      Ids(fates[..|fates| - 1]) + if f.Failed? then [] else [f.id]
  }

  /** Where an accepted connection is afterwards: watched; or open and not watched, if its address could
      not be had; or closed. */
  ghost predicate Settled(n: Net, f: Fate) {
    match f
    case Failed => true
    case NoPeer(fd, id) => fd in n.open && n.open[fd] == id && fd !in n.registered
    case StaysBlocking(fd, id) => forall gd <- n.open :: n.open[gd] != id
    case NotAdded(fd, id) => forall gd <- n.open :: n.open[gd] != id
    case Watched(fd, id) => fd in n.open && n.open[fd] == id && fd in n.registered
  }

  /** A packet, and what writing it back gave. */
  datatype Echo = Echo(chunk: Packet, outcome: WriteResult)

  /** `SendData`: a failing write closes the descriptor. */
  function Sending(fd: nat, e: Echo): seq<Call> {
    [WriteCall(fd, e.chunk, e.outcome)] + if e.outcome == WriteError then [CloseCall(fd)] else []
  }

  /** Turns of the read loop: read a packet, write it back. */
  function ReadRounds(fd: nat, echoes: seq<Echo>): seq<Call> {
    if echoes == [] then []
    else
      var e := echoes[|echoes| - 1];
      ReadRounds(fd, echoes[..|echoes| - 1]) + ([ReadCall(fd, Data(e.chunk))] + Sending(fd, e))
  }

  /** The read that ends the loop; after an error or the end of the stream the descriptor is closed. */
  function ReadEnd(fd: nat, end: ReadResult): seq<Call> {
    [ReadCall(fd, end)] + if end == ReadAgain then [] else [CloseCall(fd)]
  }

  function Chunks(echoes: seq<Echo>): seq<Packet> {
    if echoes == [] then [] else Chunks(echoes[..|echoes| - 1]) + [echoes[|echoes| - 1].chunk]
  }

  /** A write failed, and closed the descriptor. */
  predicate Lost(echoes: seq<Echo>) {
    echoes != [] && echoes[|echoes| - 1].outcome == WriteError
  }

  /** Only the last write can have failed; then the next read does too, since the descriptor is closed. */
  predicate WellEnded(echoes: seq<Echo>, end: ReadResult) {
    && !end.Data? && (Lost(echoes) ==> end == ReadError)
    && forall i :: 0 <= i < |echoes| - 1 ==> echoes[i].outcome != WriteError
  }

  /** What handling one event comes to. */
  datatype Service =
    | Closing(fd: nat)
    | Accepting(fates: seq<Fate>)
    | Reading(fd: nat, echoes: seq<Echo>, end: ReadResult)

  function Served(s: Service): seq<Call> {
    match s
    case Closing(fd) => [CloseCall(fd)]
    case Accepting(fates) => AcceptRounds(fates) + [AcceptCall(AcceptAgain)]
    case Reading(fd, echoes, end) => ReadRounds(fd, echoes) + ReadEnd(fd, end)
  }

  function AllServed(services: seq<Service>): seq<Call> {
    if services == [] then [] else AllServed(services[..|services| - 1]) + Served(services[|services| - 1])
  }

  /** Errors, hangups and half-closes close the descriptor; else the listening socket is accepted from, and
      any other descriptor read from. */
  predicate Answers(listening: nat, e: Event, s: Service) {
    if e.1 != Readable then s == Closing(e.0)
    else if e.0 == listening then s.Accepting?
    else s.Reading? && s.fd == e.0 && WellEnded(s.echoes, s.end)
  }

  /** One service for each event, in order. */
  predicate AreAnswers(listening: nat, events: seq<Event>, services: seq<Service>) {
    |services| == |events| && forall i :: 0 <= i < |events| ==> Answers(listening, events[i], services[i])
  }

  lemma OneAnswer(listening: nat, events: seq<Event>, services: seq<Service>, s: Service)
    requires |services| < |events| && AreAnswers(listening, events[..|services|], services)
    requires Answers(listening, events[|services|], s)
    ensures AreAnswers(listening, events[..|services| + 1], services + [s])
  {
  }

  /** One turn of the loop: the events fetched, and one service for each, in order. */
  datatype LoopTurn = LoopTurn(events: seq<Event>, services: seq<Service>)

  predicate IsLoopTurn(listening: nat, t: LoopTurn) {
    |t.events| <= MAX_EVENTS && AreAnswers(listening, t.events, t.services)
  }

  function AllTurns(turns: seq<LoopTurn>): seq<Call> {
    if turns == [] then []
    else
      var t := turns[|turns| - 1];
      AllTurns(turns[..|turns| - 1]) + ([WaitCall(t.events)] + AllServed(t.services))
  }

  lemma OneAccept(before: seq<Call>, fates: seq<Fate>, f: Fate)
    ensures before + AcceptRounds(fates) + AcceptRound(f) == before + AcceptRounds(fates + [f])
    ensures Ids(fates + [f]) == Ids(fates) + if f.Failed? then [] else [f.id]
  {
    assert (fates + [f])[..|fates|] == fates;
    Associative(before, AcceptRounds(fates), AcceptRound(f));
  }

  lemma OneEcho(before: seq<Call>, fd: nat, echoes: seq<Echo>, e: Echo)
    ensures before + ReadRounds(fd, echoes) + [ReadCall(fd, Data(e.chunk))] + Sending(fd, e) ==
            before + ReadRounds(fd, echoes + [e])
    ensures Chunks(echoes + [e]) == Chunks(echoes) + [e.chunk]
  {
    assert (echoes + [e])[..|echoes|] == echoes;
    Associative(before + ReadRounds(fd, echoes), [ReadCall(fd, Data(e.chunk))], Sending(fd, e));
    Associative(before, ReadRounds(fd, echoes), [ReadCall(fd, Data(e.chunk))] + Sending(fd, e));
  }

  lemma OneService(before: seq<Call>, services: seq<Service>, s: Service)
    ensures before + AllServed(services) + Served(s) == before + AllServed(services + [s])
  {
    assert (services + [s])[..|services|] == services;
    Associative(before, AllServed(services), Served(s));
  }

  lemma OneTurn(before: seq<Call>, turns: seq<LoopTurn>, t: LoopTurn)
    ensures before + AllTurns(turns) + ([WaitCall(t.events)] + AllServed(t.services)) == before + AllTurns(turns + [t])
  {
    assert (turns + [t])[..|turns|] == turns;
    Associative(before, AllTurns(turns), [WaitCall(t.events)] + AllServed(t.services));
  }

  /** Accepted connections were not waiting any more, so no later one is the same. */
  lemma IdIsNew(fates: seq<Fate>, f: Fate, id: nat, rest: seq<nat>)
    requires Distinct(Ids(fates) + ([id] + rest)) && f in fates && !f.Failed?
    ensures f.id != id
  {
    var all, n := Ids(fates) + ([id] + rest), |Ids(fates)|;
    IdIsThere(fates, f);
    var i :| 0 <= i < n && Ids(fates)[i] == f.id;
    assert all[i] == f.id && all[n] == id;
  }

  lemma {:induction false} IdIsThere(fates: seq<Fate>, f: Fate)
    requires f in fates && !f.Failed?
    ensures f.id in Ids(fates)
  {
    if fates[|fates| - 1] != f {
      IdIsThere(fates[..|fates| - 1], f);
    }
  }

  /** The packets of the connection behind fd grew by these. */
  predicate Grown(before: seq<seq<Packet>>, after: seq<seq<Packet>>, open: map<nat, nat>, fd: nat, more: seq<Packet>) {
    if fd in open && open[fd] < |before| then after == before[open[fd] := before[open[fd]] + more]
    else after == before && more == []
  }

  /** What is open and registered: as before, or without fd. */
  predicate StillOpen(before: Net, open: map<nat, nat>, registered: set<nat>, fd: nat, gone: bool) {
    && open == (if gone then before.open - {fd} else before.open)
    && registered == if gone then before.registered - {fd} else before.registered
  }

  /** The read loop so far: after these echoes, with `more` handed to the callback. */
  predicate ReadSoFar(start: Net, delivered: seq<seq<Packet>>, fd: nat, echoes: seq<Echo>,
        open: map<nat, nat>, registered: set<nat>, packets: seq<seq<Packet>>, more: seq<Packet>) {
    && StillOpen(start, open, registered, fd, Lost(echoes)) && Grown(delivered, packets, start.open, fd, more)
    && forall i :: 0 <= i < |echoes| - 1 ==> echoes[i].outcome != WriteError
  }

  lemma ReadNothing(start: Net, delivered: seq<seq<Packet>>, fd: nat)
    ensures ReadSoFar(start, delivered, fd, [], start.open, start.registered, delivered, Chunks([]))
  {
    assert fd in start.open && start.open[fd] < |delivered| ==>
      delivered[start.open[fd]] + Chunks([]) == delivered[start.open[fd]];
  }

  lemma ReadOneMore(start: Net, delivered: seq<seq<Packet>>, fd: nat, echoes: seq<Echo>, open: map<nat, nat>,
        registered: set<nat>, packets: seq<seq<Packet>>, after: seq<seq<Packet>>, chunk: Packet)
    requires ReadSoFar(start, delivered, fd, echoes, open, registered, packets, Chunks(echoes))
    requires fd in open && open[fd] < |packets| && after == packets[open[fd] := packets[open[fd]] + [chunk]]
    ensures ReadSoFar(start, delivered, fd, echoes, open, registered, after, Chunks(echoes) + [chunk])
  {
    Associative(delivered[open[fd]], Chunks(echoes), [chunk]);
  }

  lemma ReadMore(start: Net, delivered: seq<seq<Packet>>, fd: nat, echoes: seq<Echo>, open: map<nat, nat>,
        registered: set<nat>, packets: seq<seq<Packet>>, e: Echo)
    requires ReadSoFar(start, delivered, fd, echoes, open, registered, packets, Chunks(echoes) + [e.chunk])
    requires fd in open
    ensures var gone := if e.outcome == WriteError then {fd} else {};
      ReadSoFar(start, delivered, fd, echoes + [e], open - gone, registered - gone, packets, Chunks(echoes + [e]))
  {
    assert (echoes + [e])[..|echoes|] == echoes;
  }

  // ----- the network

  ghost predicate Distinct(s: seq<nat>) {
    forall i, j :: 0 <= i < j < |s| ==> s[i] != s[j]
  }

  /** Every connection is in one place. */
  ghost predicate WellFormed(n: Net, listening: nat) {
    && |n.unread| == |n.future|
    && Distinct(n.backlog + n.coming)
    && (forall id <- n.backlog + n.coming :: id < |n.unread|)
    && (forall fd <- n.open :: fd != listening && n.open[fd] < |n.unread| && n.open[fd] !in n.backlog + n.coming)
    && (forall fd <- n.open, gd <- n.open :: fd != gd ==> n.open[fd] != n.open[gd])
    && (forall fd <- n.registered :: fd == listening || fd in n.open)
  }

  /** Nothing readable at fd would be missed: an edge is pending. */
  ghost predicate Seen(n: Net, listening: nat, fd: nat) {
    if fd == listening then n.backlog != [] ==> fd in n.edges
    else fd in n.open && n.open[fd] < |n.unread| && n.unread[n.open[fd]] != [] ==> fd in n.edges
  }

  /** Every watched descriptor with unread bytes or waiting clients has a pending edge. */
  ghost predicate AllSeen(n: Net, listening: nat) {
    forall fd <- n.registered :: Seen(n, listening, fd)
  }

  /** An edge is pending, or one of these fetched events is for it. */
  ghost predicate Awaited(n: Net, listening: nat, fd: nat, events: seq<Event>) {
    Seen(n, listening, fd) || exists i :: 0 <= i < |events| && events[i].0 == fd
  }

  /** Between two calls of the server, clients may connect and bytes may arrive. */
  ghost predicate Later(a: Net, b: Net, listening: nat) {
    && b.open == a.open && b.registered == a.registered && b.mishaps == a.mishaps
    && b.backlog + b.coming == a.backlog + a.coming && a.backlog <= b.backlog
    && |b.unread| == |a.unread| && |b.future| == |a.future|
    && (forall id | 0 <= id < |a.unread| && id < |a.future| ::
          a.unread[id] <= b.unread[id] && b.unread[id] + b.future[id] == a.unread[id] + a.future[id])
    && a.edges <= b.edges
    && (forall fd <- a.registered :: Seen(a, listening, fd) ==> Seen(b, listening, fd))
  }

  /** A handler ran: nobody was registered but by `accept`, and what was seen to is still seen to;
      so is everything in `served`. */
  ghost predicate Handled(a: Net, b: Net, listening: nat, served: set<nat>) {
    forall fd <- b.registered ::
      fd in served || fd !in a.registered || Seen(a, listening, fd) ==> Seen(b, listening, fd)
  }

  /** `accept` gave an unused descriptor to the first who waited. */
  ghost predicate Took(a: Net, b: Net, fd: nat, id: nat) {
    && fd !in a.open && fd !in a.registered && b.open == a.open[fd := id] && b.registered == a.registered
    && [id] + (b.backlog + b.coming) == a.backlog + a.coming
    && forall gd <- a.open :: a.open[gd] != id
  }

  /** What the calls after `accept` change. */
  ghost predicate Welcomed(a: Net, b: Net, fd: nat, f: Fate) {
    && b.open == (if f.Watched? || f.NoPeer? then a.open else a.open - {fd})
    && b.registered == (if f.Watched? then a.registered + {fd} else a.registered)
    && b.backlog == a.backlog && b.coming == a.coming && b.mishaps == a.mishaps
  }

  /** The accept loop so far: who was accepted, in order, and who is still waiting are those who were; each
      accepted one is where its fate says; what was open and watched still is. */
  ghost predicate AcceptedSoFar(a: Net, b: Net, fates: seq<Fate>) {
    && Ids(fates) + (b.backlog + b.coming) == a.backlog + a.coming
    && (forall f <- fates :: Settled(b, f))
    && (forall fd <- a.open :: fd in b.open && b.open[fd] == a.open[fd])
    && a.registered <= b.registered
  }

  lemma NoneAccepted(a: Net, b: Net, c: Net, fates: seq<Fate>)
    requires AcceptedSoFar(a, b, fates) && c.backlog + c.coming == b.backlog + b.coming
    requires c.open == b.open && c.registered == b.registered
    ensures AcceptedSoFar(a, c, fates) && AcceptedSoFar(a, c, fates + [Failed])
  {
    assert (fates + [Failed])[..|fates|] == fates;
  }

  /** One more connection was accepted, into state c, and then settled. */
  lemma OneAccepted(a: Net, b: Net, c: Net, d: Net, fates: seq<Fate>, f: Fate)
    requires AcceptedSoFar(a, b, fates) && Distinct(a.backlog + a.coming) && !f.Failed?
    requires Took(b, c, f.fd, f.id) && Welcomed(c, d, f.fd, f)
    ensures AcceptedSoFar(a, d, fates + [f])
  {
    assert (fates + [f])[..|fates|] == fates;
    var rest := c.backlog + c.coming;
    Associative(Ids(fates), [f.id], rest);
    forall g | g in fates + [f]
      ensures Settled(d, g)
    {
      if g in fates && !g.Failed? {
        IdIsNew(fates, g, f.id, rest);
        assert Settled(b, g);
      }
    }
  }

  ghost predicate AllAwaited(n: Net, listening: nat, events: seq<Event>) {
    forall fd <- n.registered :: Awaited(n, listening, fd, events)
  }

  /** After the handler of event i, the later events are awaited. */
  lemma OneHandled(a: Net, b: Net, listening: nat, events: seq<Event>, i: nat)
    requires i < |events| && AllAwaited(a, listening, events[i..]) && Handled(a, b, listening, {events[i].0})
    ensures AllAwaited(b, listening, events[i + 1..])
  {
    forall fd | fd in b.registered
      ensures Awaited(b, listening, fd, events[i + 1..])
    {
      if fd in a.registered && !Seen(a, listening, fd) && fd != events[i].0 {
        var j :| 0 <= j < |events[i..]| && events[i..][j].0 == fd;
        assert events[i + 1..][j - 1].0 == fd;
      }
    }
  }

  /** While reading from fd: nobody else's edge is lost. */
  ghost predicate OthersSeenTo(a: Net, b: Net, listening: nat, fd: nat) {
    b.registered <= a.registered && forall gd <- b.registered ::
      gd != fd && Seen(a, listening, gd) ==> Seen(b, listening, gd)
  }

  lemma OthersStillSeenTo(a: Net, b: Net, c: Net, listening: nat, fd: nat)
    requires OthersSeenTo(a, b, listening, fd) && OthersSeenTo(b, c, listening, fd)
    ensures OthersSeenTo(a, c, listening, fd)
    ensures (fd in c.registered ==> Seen(c, listening, fd)) ==> Handled(a, c, listening, {fd})
  {
  }

  /** While accepting: nobody's edge is lost but that of the listening socket, and who is new has one. */
  ghost predicate SeenTo(a: Net, b: Net, listening: nat) {
    forall fd <- b.registered ::
      fd != listening && (fd !in a.registered || Seen(a, listening, fd)) ==> Seen(b, listening, fd)
  }

  lemma StillSeenTo(a: Net, b: Net, c: Net, listening: nat)
    requires SeenTo(a, b, listening) && SeenTo(b, c, listening)
    ensures SeenTo(a, c, listening)
    ensures c.backlog == [] ==> Handled(a, c, listening, {listening})
  {
  }

  /** The bytes that connection id can still deliver. */
  function Left(n: Net, id: nat): nat {
    if id < |n.unread| && id < |n.future| then |n.unread[id]| + |n.future[id]| else 0
  }

  /** How often `accept` can still do anything but report that nobody waits. */
  function Turns(n: Net): nat {
    |n.backlog| + |n.coming| + n.mishaps
  }

  /** How long a read loop on fd can still go on. */
  function ReadsLeft(n: Net, fd: nat): nat {
    if fd in n.open then 1 + Left(n, n.open[fd]) else 0
  }

  /** The next bytes of connection id reach the server, and raise an edge of its descriptor. */
  function Arrived(n: Net, id: nat, count: nat): Net
    requires id < |n.unread| && id < |n.future| && count <= |n.future[id]|
  {
    n.(unread := n.unread[id := n.unread[id] + n.future[id][..count]],
       future := n.future[id := n.future[id][count..]],
       edges := n.edges + set fd | fd in n.registered && fd in n.open && n.open[fd] == id)
  }

  lemma ArrivedIsLater(n: Net, listening: nat, id: nat, count: nat)
    requires WellFormed(n, listening) && id < |n.unread| && count <= |n.future[id]|
    ensures WellFormed(Arrived(n, id, count), listening) && Later(n, Arrived(n, id, count), listening)
  {
    var b := Arrived(n, id, count);
    assert n.future[id] == n.future[id][..count] + n.future[id][count..];
    assert b.unread[id] + b.future[id] == n.unread[id] + n.future[id];
  }

  class EpollTcpServer {
    const listening: nat
    var net: Net
    /** By connection: the packets handed to the callback. */
    var packets: seq<seq<Packet>>
    /** By connection: everything the client will have sent. */
    ghost const streams: seq<seq<bv8>>
    /** Every call since the listening socket was registered. */
    ghost var calls: seq<Call>

    /** Every byte that a client will have sent was delivered, is unread or will come, in this order. */
    ghost predicate Streaming()
      reads this
    {
      && |packets| == |streams| == |net.unread| == |net.future|
      && (forall id :: 0 <= id < |streams| ==> Flat(packets[id]) + net.unread[id] + net.future[id] == streams[id])
      && (forall id, i :: 0 <= id < |packets| && 0 <= i < |packets[id]| ==> 1 <= |packets[id][i]| <= READ_BUF)
    }

    /** What is open and what is watched follow from the calls. */
    ghost predicate Valid()
      reads this
    {
      && WellFormed(net, listening) && Streaming()
      && AllNoted(Book(map[], {listening}), calls) == Book(net.open, net.registered)
    }

    /** `Start`: the listening socket is registered; nobody has connected yet. */
    constructor (listening: nat, streams: seq<seq<bv8>>, mishaps: nat)
      ensures Valid() && this.listening == listening && this.streams == streams && calls == []
      ensures net.registered == {listening} && Seen(net, listening, listening)
    {
      this.listening := listening;
      this.streams := streams;
      var n := |streams|;
      net := Net(seq(n, i => i), [], map[], {listening}, {}, seq(n, _ => []), streams, mishaps);
      packets := seq(n, _ => []);
      calls := [];
      new;
      assert net.backlog + net.coming == net.coming;
    }

    /** Some bytes of connection id arrive. */
    method BytesArrive(id: nat, count: nat)
      requires Valid() && id < |net.unread| && count <= |net.future[id]|
      modifies this`net
      ensures Valid() && Later(old(net), net, listening)
    {
      ArrivedIsLater(net, listening, id, count);
      net := Arrived(net, id, count);
      forall k | 0 <= k < |streams| ensures Flat(packets[k]) + net.unread[k] + net.future[k] == streams[k] {
        assert Flat(packets[k]) + net.unread[k] + net.future[k] == Flat(packets[k]) + (net.unread[k] + net.future[k]);
      }
    }

    /** A client connects. */
    method ClientConnects()
      requires Valid() && net.coming != []
      modifies this`net
      ensures Valid() && Later(old(net), net, listening)
    {
      assert net.backlog + net.coming == (net.backlog + [net.coming[0]]) + net.coming[1..];
      net := net.(backlog := net.backlog + [net.coming[0]], coming := net.coming[1..],
                  edges := net.edges + if listening in net.registered then {listening} else {});
    }

    /** Clients act, any number of times. */
    method Arrivals()
      requires Valid()
      modifies this`net
      ensures Valid() && Later(old(net), net, listening)
    {
      var steps :| 0 <= steps;
      while steps > 0
        invariant Valid() && Later(old(net), net, listening)
      {
        var id: int := *;
        if 0 <= id < |net.unread| {
          var count :| 0 <= count <= |net.future[id]|;
          BytesArrive(id, count);
        } else if net.coming != [] {
          ClientConnects();
        }
        steps := steps - 1;
      }
    }

    // ----- system calls

    /** A call that changes nothing in the kernel's books. */
    ghost method Log(c: Call)
      requires Valid() && Noted(Book(net.open, net.registered), c) == Book(net.open, net.registered)
      modifies this`calls
      ensures Valid() && calls == old(calls) + [c]
    {
      NotedSnoc(Book(map[], {listening}), calls, c);
      calls := calls + [c];
    }

    /** `read` on a non-blocking descriptor, and the delivery of what it returned to the callback.
        EAGAIN means that nothing is left to read, the end of the stream that nothing will come either. */
    method ReadAndDeliver(fd: nat) returns (r: ReadResult)
      requires Valid()
      modifies this`net, this`packets, this`calls
      ensures Valid() && calls == old(calls) + [ReadCall(fd, r)]
      ensures net.open == old(net).open && net.registered == old(net).registered && net.mishaps == old(net).mishaps
      ensures forall gd <- net.registered :: gd != fd && Seen(old(net), listening, gd) ==> Seen(net, listening, gd)
      ensures r.Data? ==> fd in net.open && 1 <= |r.chunk| <= READ_BUF
      ensures r.Data? ==> Left(net, net.open[fd]) < Left(old(net), net.open[fd])
      ensures r.Data? ==> packets == old(packets)[net.open[fd] := old(packets)[net.open[fd]] + [r.chunk]]
      ensures !r.Data? ==> packets == old(packets)
      ensures r.ReadAgain? ==> fd in net.open && net.unread[net.open[fd]] == []
      ensures r.Eof? ==> fd in net.open && Flat(packets[net.open[fd]]) == streams[net.open[fd]]
    {
      Arrivals();
      r := Take(fd);
      Log(ReadCall(fd, r));
    }

    /** The same without arrivals before it. */
    method Take(fd: nat) returns (r: ReadResult)
      requires Valid()
      modifies this`net, this`packets
      ensures Valid() && (!r.Data? ==> net == old(net) && packets == old(packets))
      ensures net.open == old(net).open && net.registered == old(net).registered && net.mishaps == old(net).mishaps
      ensures forall gd <- net.registered :: gd != fd && Seen(old(net), listening, gd) ==> Seen(net, listening, gd)
      ensures r.Data? ==> fd in net.open && 1 <= |r.chunk| <= READ_BUF
      ensures r.Data? ==> Left(net, net.open[fd]) < Left(old(net), net.open[fd])
      ensures r.Data? ==> packets == old(packets)[net.open[fd] := old(packets)[net.open[fd]] + [r.chunk]]
      ensures r.ReadAgain? ==> fd in net.open && net.unread[net.open[fd]] == []
      ensures r.Eof? ==> fd in net.open && Flat(packets[net.open[fd]]) == streams[net.open[fd]]
    {
      r := Read(fd);
      if r.Data? {
        assert r.chunk == net.unread[net.open[fd]][..|r.chunk|];
        Deliver(net.open[fd], |r.chunk|);
      } else if r.Eof? {
        AllDelivered(net.open[fd]);
      }
    }

    /** Nothing is unread and nothing will come. */
    lemma AllDelivered(id: nat)
      requires Valid() && id < |streams| && net.unread[id] == [] && net.future[id] == []
      ensures Flat(packets[id]) == streams[id]
    {
      assert streams[id] == Flat(packets[id]) + net.unread[id] + net.future[id];
    }

    /** What `read` answers. */
    method Read(fd: nat) returns (r: ReadResult)
      requires Valid()
      ensures r.Data? ==> fd in net.open && r.chunk <= net.unread[net.open[fd]] && 1 <= |r.chunk| <= READ_BUF
      ensures r.ReadAgain? ==> fd in net.open && net.unread[net.open[fd]] == []
      ensures r.Eof? ==> fd in net.open && net.unread[net.open[fd]] == [] && net.future[net.open[fd]] == []
    {
      var failed: bool := *;
      if failed || fd !in net.open {
        return ReadError; // EBADF if it is not open
      }
      var id := net.open[fd];
      if net.unread[id] == [] {
        var ended: bool := *;
        return if ended && net.future[id] == [] then Eof else ReadAgain;
      }
      var n :| 1 <= n <= |net.unread[id]| && n <= READ_BUF;
      r := Data(net.unread[id][..n]);
    }

    /** The first n unread bytes of connection id become a packet. */
    method Deliver(id: nat, n: nat)
      requires Valid() && id < |net.unread| && 1 <= n <= |net.unread[id]| && n <= READ_BUF
      modifies this`net, this`packets
      ensures Valid() && net == old(net).(unread := old(net).unread[id := old(net).unread[id][n..]])
      ensures packets == old(packets)[id := old(packets)[id] + [old(net).unread[id][..n]]]
    {
      var chunk, rest := net.unread[id][..n], net.unread[id][n..];
      CutOff(packets[id], net.unread[id], net.future[id], n);
      net := net.(unread := net.unread[id := rest]);
      packets := packets[id := packets[id] + [chunk]];
    }

    /** `close`; a number that is not open is an error without effect.  epoll forgets the descriptor. */
    method Close(fd: nat)
      requires Valid()
      modifies this`net, this`calls
      ensures Valid() && calls == old(calls) + [CloseCall(fd)]
      ensures var n := old(net);
        net == n.(open := n.open - {fd}, registered := n.registered - {fd}, edges := n.edges - {fd})
      ensures forall gd <- net.registered :: Seen(old(net), listening, gd) ==> Seen(net, listening, gd)
    {
      NotedSnoc(Book(map[], {listening}), calls, CloseCall(fd));
      calls := calls + [CloseCall(fd)];
      net := net.(open := net.open - {fd}, registered := net.registered - {fd}, edges := net.edges - {fd});
    }

    /** `SendData`, the echo callback: a failing write closes the descriptor; if the socket cannot take
        anything now, the packet is dropped. */
    method SendData(fd: nat, data: Packet) returns (outcome: WriteResult)
      requires Valid()
      modifies this`net, this`calls
      ensures Valid() && calls == old(calls) + Sending(fd, Echo(data, outcome))
      ensures var n := old(net); net == if outcome != WriteError then n else
        n.(open := n.open - {fd}, registered := n.registered - {fd}, edges := n.edges - {fd})
      ensures forall gd <- net.registered :: Seen(old(net), listening, gd) ==> Seen(net, listening, gd)
    {
      outcome := *;
      Log(WriteCall(fd, data, outcome));
      if outcome == WriteError {
        Close(fd);
      }
    }

    /** What was read is written back. */
    method WriteBack(fd: nat, chunk: Packet, ghost before: seq<Call>, ghost start: Net,
          ghost delivered: seq<seq<Packet>>, ghost echoes: seq<Echo>)
      returns (ghost e: Echo)
      requires Valid() && calls == before + ReadRounds(fd, echoes) + [ReadCall(fd, Data(chunk))] && fd in net.open
      requires ReadSoFar(start, delivered, fd, echoes, net.open, net.registered, packets, Chunks(echoes) + [chunk])
      modifies this`net, this`calls
      ensures Valid() && calls == before + ReadRounds(fd, echoes + [e])
      ensures ReadSoFar(start, delivered, fd, echoes + [e], net.open, net.registered, packets, Chunks(echoes + [e]))
      ensures OthersSeenTo(old(net), net, listening, fd)
      ensures ReadsLeft(net, fd) <= ReadsLeft(old(net), fd)
    {
      var outcome := SendData(fd, chunk);
      e := Echo(chunk, outcome);
      OneEcho(before, fd, echoes, e);
      ReadMore(start, delivered, fd, echoes, old(net).open, old(net).registered, packets, e);
    }

    /** One turn of the read loop. */
    method ReadOnce(fd: nat, ghost before: seq<Call>, ghost start: Net, ghost delivered: seq<seq<Packet>>,
          ghost echoes: seq<Echo>)
      returns (r: ReadResult, ghost e: Echo)
      requires Valid() && fd != listening && calls == before + ReadRounds(fd, echoes)
      requires ReadSoFar(start, delivered, fd, echoes, net.open, net.registered, packets, Chunks(echoes))
      modifies this`net, this`packets, this`calls
      ensures Valid() && OthersSeenTo(old(net), net, listening, fd)
      ensures calls == before +
        if r.Data? then ReadRounds(fd, echoes + [e]) else ReadRounds(fd, echoes) + [ReadCall(fd, r)]
      ensures var now := if r.Data? then echoes + [e] else echoes;
        ReadSoFar(start, delivered, fd, now, net.open, net.registered, packets, Chunks(now))
      ensures r.Data? ==> ReadsLeft(net, fd) < ReadsLeft(old(net), fd)
      ensures r.ReadAgain? ==> fd in net.open && net.unread[net.open[fd]] == []
      ensures r.Eof? ==> fd in net.open && Flat(packets[net.open[fd]]) == streams[net.open[fd]]
    {
      e := Echo([], Written);
      r := ReadAndDeliver(fd);
      if r.Data? {
        ReadOneMore(start, delivered, fd, echoes, net.open, net.registered, old(packets), packets, r.chunk);
        e := WriteBack(fd, r.chunk, before, start, delivered, echoes);
      } else {
        Associative(before, ReadRounds(fd, echoes), [ReadCall(fd, r)]);
      }
    }

    /** The last turn ends with a close, unless it was EAGAIN. */
    method EndOfReading(fd: nat, r: ReadResult, ghost before: seq<Call>, ghost echoes: seq<Echo>)
      requires Valid() && calls == before + (ReadRounds(fd, echoes) + [ReadCall(fd, r)])
      modifies this`net, this`calls
      ensures Valid() && calls == before + (ReadRounds(fd, echoes) + ReadEnd(fd, r))
      ensures var gone := if r == ReadAgain then {} else {fd};
        net.open == old(net).open - gone && net.registered == old(net).registered - gone
      ensures OthersSeenTo(old(net), net, listening, fd)
      ensures r == ReadAgain ==> net == old(net)
    {
      if r != ReadAgain {
        Close(fd);
        Associative(before, ReadRounds(fd, echoes) + [ReadCall(fd, r)], [CloseCall(fd)]);
        Associative(ReadRounds(fd, echoes), [ReadCall(fd, r)], [CloseCall(fd)]);
      }
    }

    /** The read loop after these echoes. */
    ghost predicate InReadLoop(before: seq<Call>, start: Net, delivered: seq<seq<Packet>>, fd: nat, echoes: seq<Echo>)
      reads this
    {
      && Valid() && calls == before + ReadRounds(fd, echoes) && OthersSeenTo(start, net, listening, fd)
      && ReadSoFar(start, delivered, fd, echoes, net.open, net.registered, packets, Chunks(echoes))
    }

    /** The read loop is over: at EAGAIN the descriptor is drained and everything is open as before; else it is
        closed, and at the end of the stream all of it was delivered.  Each packet went to the callback and was
        written back; nobody else's edge is lost. */
    ghost predicate ReadDone(before: seq<Call>, start: Net, delivered: seq<seq<Packet>>, fd: nat, echoes: seq<Echo>,
          end: ReadResult)
      reads this
    {
      && Valid() && Handled(start, net, listening, {fd}) && WellEnded(echoes, end)
      && calls == before + (ReadRounds(fd, echoes) + ReadEnd(fd, end))
      && StillOpen(start, net.open, net.registered, fd, end != ReadAgain)
      && Grown(delivered, packets, start.open, fd, Chunks(echoes))
      && (end.ReadAgain? ==> fd in net.open && net.unread[net.open[fd]] == [])
      && (end.Eof? ==> fd in start.open && start.open[fd] < |streams| &&
                       Flat(packets[start.open[fd]]) == streams[start.open[fd]])
    }

    /** The end of the read loop, after the read that ends it. */
    method Leave(fd: nat, r: ReadResult, ghost before: seq<Call>, ghost start: Net, ghost delivered: seq<seq<Packet>>,
          ghost echoes: seq<Echo>)
      requires Valid() && !r.Data? && calls == before + (ReadRounds(fd, echoes) + [ReadCall(fd, r)])
      requires OthersSeenTo(start, net, listening, fd)
      requires ReadSoFar(start, delivered, fd, echoes, net.open, net.registered, packets, Chunks(echoes))
      requires r.ReadAgain? ==> fd in net.open && net.unread[net.open[fd]] == []
      requires r.Eof? ==> fd in net.open && Flat(packets[net.open[fd]]) == streams[net.open[fd]]
      modifies this`net, this`calls
      ensures ReadDone(before, start, delivered, fd, echoes, r)
    {
      ghost var last := net;
      EndOfReading(fd, r, before, echoes);
      OthersStillSeenTo(start, last, net, listening, fd);
    }

    /** One turn of the read loop, the last one included. */
    method ReadTurn(fd: nat, ghost before: seq<Call>, ghost start: Net, ghost delivered: seq<seq<Packet>>,
          ghost echoes: seq<Echo>)
      returns (r: ReadResult, ghost e: Echo)
      requires InReadLoop(before, start, delivered, fd, echoes) && fd != listening
      modifies this`net, this`packets, this`calls
      ensures if r.Data? then InReadLoop(before, start, delivered, fd, echoes + [e])
              else ReadDone(before, start, delivered, fd, echoes, r)
      ensures r.Data? ==> ReadsLeft(net, fd) < ReadsLeft(old(net), fd)
    {
      ghost var last := net;
      r, e := ReadOnce(fd, before, start, delivered, echoes);
      OthersStillSeenTo(start, last, net, listening, fd);
      if !r.Data? {
        Leave(fd, r, before, start, delivered, echoes);
      }
    }

    /** `OnSocketRead`: read and echo until EAGAIN, the end of the stream or an error. */
    method OnSocketRead(fd: nat) returns (ghost echoes: seq<Echo>, ghost end: ReadResult)
      requires Valid() && fd != listening
      modifies this`net, this`packets, this`calls
      ensures ReadDone(old(calls), old(net), old(packets), fd, echoes, end)
    {
      echoes := [];
      ghost var before, start, delivered := calls, net, packets;
      ReadNothing(start, delivered, fd);
      while true
        invariant InReadLoop(before, start, delivered, fd, echoes)
        decreases ReadsLeft(net, fd)
      {
        ghost var e;
        var r;
        r, e := ReadTurn(fd, before, start, delivered, echoes);
        if !r.Data? {
          end := r;
          return;
        }
        echoes := echoes + [e];
      }
    }

    /** `accept`: the first waiting connection gets a number that is not in use; EAGAIN means that none waits. */
    method Accept() returns (r: AcceptResult)
      requires Valid()
      modifies this`net, this`calls
      ensures Valid() && calls == old(calls) + [AcceptCall(r)] && net.registered == old(net).registered
      ensures forall gd <- net.registered ::
        gd != listening && Seen(old(net), listening, gd) ==> Seen(net, listening, gd)
      ensures net.open == if r.NewFd? then old(net).open[r.fd := r.id] else old(net).open
      ensures (if r.NewFd? then [r.id] else []) + (net.backlog + net.coming) == old(net).backlog + old(net).coming
      ensures r.NewFd? ==> Took(old(net), net, r.fd, r.id)
      ensures if r.AcceptAgain? then net.backlog == [] else Turns(net) < Turns(old(net))
    {
      Arrivals();
      var failed: bool := *;
      if failed && net.mishaps > 0 {
        net := net.(mishaps := net.mishaps - 1);
        r := AcceptError;
        Log(AcceptCall(r));
      } else if net.backlog == [] {
        r := AcceptAgain;
        Log(AcceptCall(r));
      } else {
        var fd := FreshNumber();
        r := NewFd(fd, net.backlog[0]);
        TakeFirst(fd);
      }
    }

    /** The first waiting connection gets descriptor fd. */
    method TakeFirst(fd: nat)
      requires Valid() && net.backlog != [] && fd !in net.open && fd != listening
      modifies this`net, this`calls
      ensures Valid() && calls == old(calls) + [AcceptCall(NewFd(fd, old(net).backlog[0]))]
      ensures var n := old(net); net == n.(backlog := n.backlog[1..], open := n.open[fd := n.backlog[0]])
      ensures [old(net).backlog[0]] + (net.backlog + net.coming) == old(net).backlog + old(net).coming
      ensures forall gd <- net.registered ::
        gd != listening && Seen(old(net), listening, gd) ==> Seen(net, listening, gd)
    {
      var id := net.backlog[0];
      PopBacklog(net.backlog, net.coming);
      NotedSnoc(Book(map[], {listening}), calls, AcceptCall(NewFd(fd, id)));
      calls := calls + [AcceptCall(NewFd(fd, id))];
      net := net.(backlog := net.backlog[1..], open := net.open[fd := id]);
    }

    /** A descriptor number that is not in use, any one. */
    method FreshNumber() returns (fd: nat)
      ensures fd !in net.open && fd != listening
    {
      var used: set<nat> := net.open.Keys + {listening};
      var left: set<nat> := used;
      fd := 0;
      while left != {}
        invariant forall y <- used :: y in left || y < fd
        decreases |left|
      {
        var y :| y in left;
        left := left - {y};
        fd := if y >= fd then y + 1 else fd;
      }
      var other: int := *;
      if other >= 0 && other !in used {
        fd := other;
      }
    }

    /** `getpeername`. */
    method GetPeerName(fd: nat) returns (ok: bool)
      requires Valid()
      modifies this`calls
      ensures Valid() && calls == old(calls) + [PeerCall(fd, ok)]
    {
      ok := *;
      Log(PeerCall(fd, ok));
    }

    /** `MakeSocketNonBlock`. */
    method MakeSocketNonBlock(fd: nat) returns (ok: bool)
      requires Valid()
      modifies this`calls
      ensures Valid() && calls == old(calls) + [NonBlockCall(fd, ok)]
    {
      ok := *;
      Log(NonBlockCall(fd, ok));
    }

    /** `UpdateEpollEvents` with EPOLL_CTL_ADD: what is readable already raises an edge at once. */
    method UpdateEpollEvents(fd: nat) returns (ok: bool)
      requires Valid() && fd in net.open
      modifies this`net, this`calls
      ensures Valid() && calls == old(calls) + [AddCall(fd, ok)]
      ensures !ok ==> net == old(net)
      ensures ok ==> net == old(net).(registered := old(net).registered + {fd}, edges := net.edges)
      ensures ok ==> Seen(net, listening, fd)
      ensures forall gd <- net.registered :: gd != fd && Seen(old(net), listening, gd) ==> Seen(net, listening, gd)
    {
      ok := *;
      NotedSnoc(Book(map[], {listening}), calls, AddCall(fd, ok));
      calls := calls + [AddCall(fd, ok)];
      if ok {
        net := net.(registered := net.registered + {fd},
                    edges := net.edges + if net.unread[net.open[fd]] != [] then {fd} else {});
      }
    }

    /** Watch a new descriptor, and close it if that fails. */
    method Watch(fd: nat, id: nat) returns (ghost f: Fate)
      requires Valid() && fd in net.open && net.open[fd] == id && fd !in net.registered
      modifies this`net, this`calls
      ensures Valid() && f == (if f.Watched? then Watched(fd, id) else NotAdded(fd, id))
      ensures calls == old(calls) + [AddCall(fd, f.Watched?)] + if f.Watched? then [] else [CloseCall(fd)]
      ensures Welcomed(old(net), net, fd, f)
      ensures forall gd <- net.registered :: gd in old(net).registered && Seen(old(net), listening, gd) ==>
        Seen(net, listening, gd)
      ensures f.Watched? ==> Seen(net, listening, fd)
    {
      var added := UpdateEpollEvents(fd);
      if !added {
        Close(fd);
        return NotAdded(fd, id);
      }
      f := Watched(fd, id);
    }

    /** Make a new descriptor non-blocking, then watch it. */
    method Prepare(fd: nat, id: nat, ghost before: seq<Call>) returns (ghost f: Fate)
      requires Valid() && fd in net.open && net.open[fd] == id && fd !in net.registered
      requires calls == before + [PeerCall(fd, true)]
      modifies this`net, this`calls
      ensures Valid() && !f.Failed? && f.fd == fd && f.id == id && calls == before + AfterAccept(f)
      ensures Welcomed(old(net), net, fd, f)
      ensures forall gd <- net.registered :: gd in old(net).registered && Seen(old(net), listening, gd) ==>
        Seen(net, listening, gd)
      ensures f.Watched? ==> Seen(net, listening, fd)
    {
      var nonBlocking := MakeSocketNonBlock(fd);
      if !nonBlocking {
        Close(fd);
        return StaysBlocking(fd, id);
      }
      f := Watch(fd, id);
    }

    /** A new descriptor: get its address, make it non-blocking, watch it.  If that fails it is closed, or,
        if its address cannot be had, just left. */
    method Welcome(fd: nat, id: nat) returns (ghost f: Fate)
      requires Valid() && fd in net.open && net.open[fd] == id && fd !in net.registered
      modifies this`net, this`calls
      ensures Valid() && !f.Failed? && f.fd == fd && f.id == id && calls == old(calls) + AfterAccept(f)
      ensures Welcomed(old(net), net, fd, f)
      ensures forall gd <- net.registered :: gd in old(net).registered && Seen(old(net), listening, gd) ==>
        Seen(net, listening, gd)
      ensures f.Watched? ==> Seen(net, listening, fd)
    {
      var peerKnown := GetPeerName(fd);
      if !peerKnown {
        return NoPeer(fd, id);
      }
      f := Prepare(fd, id, old(calls));
    }

    /** A connection was accepted: what follows completes the turn. */
    method FinishAccept(fd: nat, id: nat, ghost before: seq<Call>, ghost first: Net, ghost last: Net,
          ghost fates: seq<Fate>)
      returns (ghost f: Fate)
      requires Valid() && calls == before + AcceptRounds(fates) + [AcceptCall(NewFd(fd, id))]
      requires AcceptedSoFar(first, last, fates) && Distinct(first.backlog + first.coming) && Took(last, net, fd, id)
      modifies this`net, this`calls
      ensures Valid() && calls == before + AcceptRounds(fates + [f]) && AcceptedSoFar(first, net, fates + [f])
      ensures SeenTo(old(net), net, listening)
      ensures Turns(net) == Turns(old(net))
    {
      f := Welcome(fd, id);
      OneAccept(before, fates, f);
      Associative(before + AcceptRounds(fates), [AcceptCall(NewFd(fd, id))], AfterAccept(f));
      OneAccepted(first, last, old(net), net, fates, f);
    }

    /** One turn of the accept loop. */
    method AcceptOnce(ghost before: seq<Call>, ghost first: Net, ghost fates: seq<Fate>)
      returns (again: bool, ghost f: Fate)
      requires Valid() && WellFormed(first, listening)
      requires calls == before + AcceptRounds(fates) && AcceptedSoFar(first, net, fates)
      modifies this`net, this`calls
      ensures Valid() && AcceptedSoFar(first, net, if again then fates + [f] else fates)
      ensures SeenTo(old(net), net, listening)
      ensures calls == before +
        if again then AcceptRounds(fates + [f]) else AcceptRounds(fates) + [AcceptCall(AcceptAgain)]
      ensures if again then Turns(net) < Turns(old(net)) else net.backlog == []
    {
      f := Failed;
      var r := Accept();
      again := r != AcceptAgain;
      match r {
        case AcceptAgain =>
          NoneAccepted(first, old(net), net, fates);
          Associative(before, AcceptRounds(fates), [AcceptCall(AcceptAgain)]);
        case AcceptError =>
          OneAccept(before, fates, f);
          NoneAccepted(first, old(net), net, fates);
        case NewFd(fd, id) =>
          f := FinishAccept(fd, id, before, first, old(net), fates);
      }
    }

    /** `OnSocketAccept`: accept and register until EAGAIN.  All who were waiting are accepted in order; each
        without a failed call is then open and watched; those that could not be made non-blocking or added
        are closed; nobody watched before is dropped. */
    method OnSocketAccept() returns (ghost fates: seq<Fate>)
      requires Valid()
      modifies this`net, this`calls
      ensures Valid() && Handled(old(net), net, listening, {listening}) && net.backlog == []
      ensures calls == old(calls) + (AcceptRounds(fates) + [AcceptCall(AcceptAgain)])
      ensures AcceptedSoFar(old(net), net, fates)
    {
      fates := [];
      ghost var before, first := calls, net;
      while true
        invariant Valid() && SeenTo(first, net, listening)
        invariant calls == before + AcceptRounds(fates) && AcceptedSoFar(first, net, fates)
        decreases Turns(net)
      {
        ghost var f, last := Failed, net;
        var again;
        again, f := AcceptOnce(before, first, fates);
        StillSeenTo(first, last, net, listening);
        if !again {
          return;
        }
        fates := fates + [f];
      }
    }

    // ----- the loop

    /** `epoll_wait`: at most MAX_EVENTS descriptors with a pending edge, whose edges are taken.
        A descriptor is reported as readable unless there was an error, a hangup or a half-close. */
    method EpollWait() returns (events: seq<Event>)
      requires Valid()
      modifies this`net, this`calls
      ensures Valid() && |events| <= MAX_EVENTS && calls == old(calls) + [WaitCall(events)]
      ensures net.registered == old(net).registered && net.open == old(net).open
      ensures forall gd <- net.registered :: Seen(old(net), listening, gd) ==> Awaited(net, listening, gd, events)
      ensures AllSeen(old(net), listening) ==> AllAwaited(net, listening, events)
    {
      Arrivals();
      events := [];
      var left := net.edges;
      while left != {} && |events| < MAX_EVENTS
        invariant Valid() && |events| <= MAX_EVENTS && calls == old(calls)
        invariant net.registered == old(net).registered && net.open == old(net).open
        invariant forall gd <- net.registered :: Seen(old(net), listening, gd) ==> Awaited(net, listening, gd, events)
        decreases |left|
      {
        var fd :| fd in left;
        left := left - {fd};
        var taken: bool, bad: bool, halfClosed: bool := *, *, *;
        if taken {
          ghost var before, atFirst := events, net;
          events := events + [(fd, if bad then ErrorOrHangup else if halfClosed then PeerClosed else Readable)];
          net := net.(edges := net.edges - {fd});
          assert events[|before|].0 == fd;
          forall gd | gd in net.registered && Seen(old(net), listening, gd)
            ensures Awaited(net, listening, gd, events)
          {
            if i :| 0 <= i < |before| && before[i].0 == gd {
              assert events[i].0 == gd;
            } else {
              assert Seen(atFirst, listening, gd);
            }
          }
        }
      }
      Log(WaitCall(events));
    }

    /** One event. */
    method HandleEvent(e: Event, ghost before: seq<Call>, ghost services: seq<Service>) returns (ghost s: Service)
      requires Valid() && calls == before + AllServed(services)
      modifies this`net, this`packets, this`calls
      ensures Valid() && calls == before + AllServed(services + [s]) && Answers(listening, e, s)
      ensures Handled(old(net), net, listening, {e.0})
    {
      var (fd, kind) := e;
      if kind != Readable {
        Close(fd);
        s := Closing(fd);
      } else if fd == listening {
        ghost var fates := OnSocketAccept();
        s := Accepting(fates);
      } else {
        ghost var echoes, end;
        echoes, end := OnSocketRead(fd);
        s := Reading(fd, echoes, end);
      }
      OneService(before, services, s);
    }

    /** One turn of `EpollLoop`: one wait, then one service for each event, in order. */
    method Turn() returns (ghost t: LoopTurn)
      requires Valid() && AllSeen(net, listening)
      modifies this`net, this`packets, this`calls
      ensures Valid() && AllSeen(net, listening)
      ensures IsLoopTurn(listening, t) && calls == old(calls) + ([WaitCall(t.events)] + AllServed(t.services))
    {
      var events := EpollWait();
      ghost var before, services := calls, [];
      for i := 0 to |events|
        invariant Valid() && calls == before + AllServed(services)
        invariant |services| == i && AreAnswers(listening, events[..i], services)
        invariant AllAwaited(net, listening, events[i..])
      {
        ghost var last := net;
        ghost var s := HandleEvent(events[i], before, services);
        OneHandled(last, net, listening, events, i);
        OneAnswer(listening, events, services, s);
        services := services + [s];
      }
      assert events[..|events|] == events;
      t := LoopTurn(events, services);
      Associative(old(calls), [WaitCall(events)], AllServed(services));
    }

    lemma Framed()
      requires Valid()
      ensures forall id :: 0 <= id < |streams| ==> Flat(packets[id]) <= streams[id]
    {
      forall id | 0 <= id < |streams|
        ensures Flat(packets[id]) <= streams[id]
      {
        assert streams[id] == Flat(packets[id]) + (net.unread[id] + net.future[id]);
      }
    }

    /** `EpollLoop`, any number of turns.  Whenever it is about to wait, every registered descriptor with
        unread bytes or unaccepted connections has a pending edge; and the packets of each connection,
        none empty and none larger than the buffer, are a prefix of what its client sends. */
    method EpollLoop(n: nat) returns (ghost turns: seq<LoopTurn>)
      requires Valid() && AllSeen(net, listening)
      modifies this`net, this`packets, this`calls
      ensures Valid() && |turns| == n && (forall t <- turns :: IsLoopTurn(listening, t))
      ensures calls == old(calls) + AllTurns(turns)
      ensures AllNoted(Book(map[], {listening}), calls) == Book(net.open, net.registered)
      ensures AllSeen(net, listening)
      ensures forall id :: 0 <= id < |streams| ==> Flat(packets[id]) <= streams[id]
      ensures forall id, i :: 0 <= id < |packets| && 0 <= i < |packets[id]| ==> 1 <= |packets[id][i]| <= READ_BUF
    {
      turns := [];
      ghost var before := calls;
      for turn := 0 to n
        invariant Valid() && AllSeen(net, listening)
        invariant |turns| == turn && (forall t <- turns :: IsLoopTurn(listening, t))
        invariant calls == before + AllTurns(turns)
      {
        ghost var t := Turn();
        OneTurn(before, turns, t);
        turns := turns + [t];
      }
      Framed();
    }
  }

  /** Cutting a packet off the unread bytes leaves the stream as it is. */
  lemma CutOff(parts: seq<Packet>, unread: seq<bv8>, future: seq<bv8>, n: nat)
    requires n <= |unread|
    ensures Flat(parts + [unread[..n]]) + unread[n..] + future == Flat(parts) + unread + future
  {
    assert (parts + [unread[..n]])[..|parts|] == parts;
    assert unread[..n] + unread[n..] == unread;
  }

  lemma PopBacklog(backlog: seq<nat>, coming: seq<nat>)
    requires backlog != [] && Distinct(backlog + coming)
    ensures Distinct(backlog[1..] + coming) && backlog[0] !in backlog[1..] + coming
    ensures forall id <- backlog[1..] + coming :: id in backlog + coming
    ensures backlog[0] in backlog + coming
  {
    var all := backlog + coming;
    assert all[1..] == backlog[1..] + coming;
    assert all[0] == backlog[0];
  }
}
