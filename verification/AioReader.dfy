/**
 `BatchReadByLibAIO`: a file is read chunk by chunk through the kernel's asynchronous interface, with a
 bounded number of requests in flight.  The kernel completes them in any order and in batches of any size.
 */
module AioReader {
  import BufferSize

  /** A control block: read `count` bytes at file position `offset` to buffer position `addr`. */
  datatype Request = Request(addr: nat, offset: nat, count: nat)

  /** A completion: the control block, and the number of bytes the kernel read. */
  datatype Event = Event(obj: Request, res: nat)

  /** What `io_submit` did: took a leading part of the batch, took nothing and reported an error, or took
      a request that reaches beyond the buffer. */
  datatype Submission = Accepted(n: nat) | Rejected | OutOfBuffer(culprit: Request)

  /** How the function ends: with the file's contents, with a refused submission, with a request for
      memory it does not own, or never, because it waits for a completion with nothing in flight. */
  datatype Outcome = Done(data: seq<bv8>) | Refused | Overruns(culprit: Request) | Hangs

  predicate Disjoint(r: Request, s: Request) {
    r.addr + r.count <= s.addr || s.addr + s.count <= r.addr
  }

  predicate Covers(r: Request, x: nat) {
    r.addr <= x < r.addr + r.count
  }

  function Min(a: nat, b: nat): nat {
    if a < b then a else b
  }

  /** The kernel's side: an asynchronous context for one file and one buffer. */
  class AioContext {
    const file: seq<bv8>
    const buf: array<bv8>
    const capacity: nat
    /** The kernel may refuse submissions. */
    const refusing: bool
    /** The kernel may take only some of a batch, at least one. */
    const partial: bool
    var inflight: set<Request>
    ghost var submitted: seq<Request>
    /** What each submission gave. */
    ghost var answers: seq<Submission>

    ghost predicate Valid()
      reads this
    {
      && |inflight| <= capacity
      && (forall r <- inflight :: InBuffer(r))
      && (forall r <- inflight, s <- inflight :: r != s ==> Disjoint(r, s))
    }

    predicate InBuffer(r: Request) {
      r.addr + r.count <= buf.Length
    }

    /** The part of request r up to position x is in its place in the buffer. */
    ghost predicate LoadedUpTo(r: Request, x: nat)
      requires InBuffer(r) && x <= r.addr + r.count
      reads buf
    {
      forall y :: r.addr <= y < x && r.offset + y - r.addr < |file| ==> buf[y] == file[r.offset + y - r.addr]
    }

    /** What request r reads is in its place in the buffer. */
    ghost predicate Loaded(r: Request)
      requires InBuffer(r)
      reads buf
    {
      LoadedUpTo(r, r.addr + r.count)
    }

    /** Every request was for memory in the buffer, and is in flight or its data is there. */
    ghost predicate Intact()
      reads this, buf
    {
      forall r <- submitted :: InBuffer(r) && (r !in inflight ==> Loaded(r))
    }

    /** `io_setup`. */
    constructor (file: seq<bv8>, buf: array<bv8>, capacity: nat, refusing: bool, partial: bool)
      ensures Valid() && inflight == {} && submitted == [] && answers == [] && this.file == file && this.buf == buf
      ensures this.capacity == capacity && this.refusing == refusing && this.partial == partial
    {
      this.file, this.buf, this.capacity := file, buf, capacity;
      this.refusing, this.partial := refusing, partial;
      inflight, submitted, answers := {}, [], [];
    }

    /** How many of a batch the kernel takes; nothing means an error. */
    method HowMany(size: nat) returns (n: nat)
      requires size > 0
      ensures n <= size && (n == 0 ==> refusing) && (0 < n < size ==> partial)
    {
      n := *;
      if n > size || (n == 0 && !refusing) || (0 < n < size && !partial) {
        n := size;
      }
    }

    /** `io_submit`: the requests must fit the context, and no two in flight may share memory.  What is
        taken before a request beyond the buffer shows up stays out of the books. */
    method Submit(rs: seq<Request>) returns (s: Submission)
      requires Valid() && |inflight| + |rs| <= capacity
      requires forall i :: 0 <= i < |rs| ==> rs[i] !in inflight && forall s <- inflight :: Disjoint(rs[i], s)
      requires forall i, j :: 0 <= i < j < |rs| ==> rs[i] != rs[j] && Disjoint(rs[i], rs[j])
      modifies this`inflight, this`submitted, this`answers
      ensures Valid() && answers == old(answers) + [s]
      ensures s.Rejected? ==> refusing && rs != []
      ensures s.OutOfBuffer? ==> s.culprit in rs && !InBuffer(s.culprit)
      ensures s.Accepted? ==> s.n <= |rs| && (s.n == 0 ==> rs == []) && (s.n < |rs| ==> partial)
      ensures s.Accepted? ==> forall i :: 0 <= i < s.n ==> InBuffer(rs[i])
      ensures s.Accepted? ==> submitted == old(submitted) + rs[..s.n] && |inflight| == |old(inflight)| + s.n
      ensures s.Accepted? ==> forall r :: r in inflight <==> r in old(inflight) || r in rs[..s.n]
      ensures !s.Accepted? ==> inflight == old(inflight) && submitted == old(submitted)
    {
      s := Answer(rs);
      answers := answers + [s];
      if s.Accepted? {
        Enter(rs[..s.n]);
      }
    }

    /** What the kernel says to a batch. */
    method Answer(rs: seq<Request>) returns (s: Submission)
      ensures s.Rejected? ==> refusing && rs != []
      ensures s.OutOfBuffer? ==> s.culprit in rs && !InBuffer(s.culprit)
      ensures s.Accepted? ==> s.n <= |rs| && (s.n == 0 ==> rs == []) && (s.n < |rs| ==> partial)
      ensures s.Accepted? ==> forall i :: 0 <= i < s.n ==> InBuffer(rs[i])
    {
      if rs == [] {
        return Accepted(0);
      }
      var n := HowMany(|rs|);
      if n == 0 {
        return Rejected;
      }
      for i := 0 to n
        invariant forall j :: 0 <= j < i ==> InBuffer(rs[j])
      {
        if !InBuffer(rs[i]) {
          return OutOfBuffer(rs[i]);
        }
      }
      s := Accepted(n);
    }

    /** The requests are in flight from now on. */
    method Enter(rs: seq<Request>)
      requires Valid() && |inflight| + |rs| <= capacity
      requires forall i :: 0 <= i < |rs| ==> rs[i] !in inflight && forall s <- inflight :: Disjoint(rs[i], s)
      requires forall i, j :: 0 <= i < j < |rs| ==> rs[i] != rs[j] && Disjoint(rs[i], rs[j])
      requires forall i :: 0 <= i < |rs| ==> InBuffer(rs[i])
      modifies this`inflight, this`submitted
      ensures Valid() && submitted == old(submitted) + rs && |inflight| == |old(inflight)| + |rs|
      ensures forall r :: r in inflight <==> r in old(inflight) || r in rs
    {
      for n := 0 to |rs|
        invariant Valid() && |inflight| == |old(inflight)| + n && submitted == old(submitted) + rs[..n]
        invariant forall r :: r in inflight <==> r in old(inflight) || r in rs[..n]
      {
        assert rs[..n + 1] == rs[..n] + [rs[n]];
        EnterOne(rs[n]);
      }
      assert rs[..|rs|] == rs;
    }

    method EnterOne(r: Request)
      requires Valid() && |inflight| < capacity && InBuffer(r) && r !in inflight
      requires forall s <- inflight :: Disjoint(r, s)
      modifies this`inflight, this`submitted
      ensures Valid() && submitted == old(submitted) + [r]
      ensures inflight == old(inflight) + {r} && |inflight| == |old(inflight)| + 1
    {
      inflight := inflight + {r};
      submitted := submitted + [r];
    }

    /** The buffer is as it was wherever none of the requests may write. */
    twostate predicate Untouched(rs: set<Request>)
      reads buf
    {
      forall x: nat :: x < buf.Length && (forall r <- rs :: !Covers(r, x)) ==> buf[x] == old(buf[x])
    }

    /** `io_getevents` with a minimum of one: waits until something completes, so something must be in
        flight.  Meanwhile the memory of every request in flight may change; that of the completed ones
        then holds the data. */
    method GetEvents(max: nat) returns (events: seq<Event>)
      requires Valid() && inflight != {} && max >= 1
      modifies this`inflight, buf
      ensures Valid()
      ensures 1 <= |events| <= max
      ensures inflight <= old(inflight) && |inflight| + |events| == |old(inflight)|
      ensures forall i :: 0 <= i < |events| ==> events[i].obj in old(inflight) - inflight
      ensures forall i, j :: 0 <= i < j < |events| ==> events[i].obj != events[j].obj
      ensures forall r <- old(inflight) - inflight :: Loaded(r)
      ensures Untouched(old(inflight))
    {
      events := [];
      var enough :| 1 <= enough <= max;
      while inflight != {} && |events| < enough
        invariant Valid() && inflight <= old(inflight) && |events| <= enough
        invariant |inflight| + |events| == |old(inflight)|
        invariant forall i :: 0 <= i < |events| ==> events[i].obj in old(inflight) - inflight
        invariant forall i, j :: 0 <= i < j < |events| ==> events[i].obj != events[j].obj
        invariant forall r <- old(inflight) - inflight :: Loaded(r)
        invariant Untouched(old(inflight))
        decreases |inflight|
      {
        var r :| r in inflight;
        label Before:
        Transfer(r);
        forall s | s in old(inflight) - inflight ensures Loaded(s) {
          assert Disjoint(s, r) && old@Before(Loaded(s));
        }
        inflight := inflight - {r};
        var left := if r.offset <= |file| then |file| - r.offset else 0;
        events := events + [Event(r, Min(r.count, left))];
      }
    }

    /** The read itself: as much of the request as the file has. */
    method Transfer(r: Request)
      requires InBuffer(r)
      modifies buf
      ensures Loaded(r)
      ensures forall x: nat :: x < buf.Length && !Covers(r, x) ==> buf[x] == old(buf[x])
    {
      for i := 0 to r.count
        invariant LoadedUpTo(r, r.addr + i)
        invariant forall x: nat :: x < buf.Length && !Covers(r, x) ==> buf[x] == old(buf[x])
      {
        if r.offset + i < |file| {
          buf[r.addr + i] := file[r.offset + i];
        }
      }
    }
  }

  // ----- chunks

  /** Where chunk i starts: i times the size. */
  function Start(i: nat, size: nat): nat {
    if i == 0 then 0 else Start(i - 1, size) + size
  }

  /** The request for chunk i of size `size`. */
  function Chunk(i: nat, size: nat): Request {
    Request(Start(i, size), Start(i, size), size)
  }

  function Chunks(n: nat, size: nat): seq<Request> {
    seq(n, i requires 0 <= i < n => Chunk(i, size))
  }

  /** How many chunks it takes to cover a file. */
  function ChunkCount(fileSize: nat, size: nat): nat
    requires size > 0
  {
    (fileSize + size - 1) / size
  }

  lemma {:induction false} StartIsProduct(i: nat, size: nat)
    ensures Start(i, size) == i * size
  {
    if i > 0 {
      StartIsProduct(i - 1, size);
      assert i * size == (i - 1) * size + size;
    }
  }

  lemma {:induction false} StartMonotone(i: nat, j: nat, size: nat)
    requires i <= j
    ensures Start(i, size) <= Start(j, size)
    decreases j
  {
    if i < j {
      StartMonotone(i, j - 1, size);
    }
  }

  /** Chunk k starts inside the file exactly when it is one of the chunks that cover it. */
  lemma StartsInside(fileSize: nat, size: nat, k: nat)
    requires size > 0
    ensures Start(k, size) < fileSize <==> k < ChunkCount(fileSize, size)
  {
    var n := ChunkCount(fileSize, size);
    assert fileSize + size - 1 == n * size + (fileSize + size - 1) % size;
    StartIsProduct(n, size);
    if k < n {
      StartMonotone(k, n - 1, size);
    } else {
      StartMonotone(n, k, size);
    }
  }

  lemma ChunksApart(i: nat, j: nat, size: nat)
    requires i < j
    ensures Start(i, size) + size <= Start(j, size)
  {
    StartMonotone(i + 1, j, size);
  }

  /** The index of the i-th chunk taken, if the kernel took `first` of the first batch and left `lost`. */
  function Nth(i: nat, first: nat, lost: nat): nat {
    if i < first then i else i + lost
  }

  /** The first n requests that the kernel took. */
  function Taken(n: nat, first: nat, lost: nat, size: nat): seq<Request> {
    seq(n, i requires 0 <= i < n => Chunk(Nth(i, first, lost), size))
  }

  lemma TakenApart(n: nat, first: nat, lost: nat, size: nat, i: nat, j: nat)
    requires size > 0 && i < j < n
    ensures var t := Taken(n, first, lost, size); t[i] != t[j] && Disjoint(t[i], t[j])
  {
    ChunksApart(Nth(i, first, lost), Nth(j, first, lost), size);
  }

  lemma TakenDisjoint(n: nat, first: nat, lost: nat, size: nat, r: Request, s: Request)
    requires size > 0 && r in Taken(n, first, lost, size) && s in Taken(n, first, lost, size) && r != s
    ensures Disjoint(r, s)
  {
    var i :| 0 <= i < n && Taken(n, first, lost, size)[i] == r;
    var j :| 0 <= j < n && Taken(n, first, lost, size)[j] == s;
    if i < j {
      TakenApart(n, first, lost, size, i, j);
    } else if j < i {
      TakenApart(n, first, lost, size, j, i);
    }
  }

  // ----- the function itself

  /** The size of the first batch: the last chunk is never part of it. */
  function FirstBatch(fileSize: nat, maxEvents: nat, size: nat): nat
    requires size > 0 && maxEvents > 0
  {
    if fileSize <= size then 0 else Min(maxEvents, ChunkCount(fileSize, size) - 1)
  }

  /** The kernel took something of every batch, `first` of the first one. */
  predicate AllAccepted(answers: seq<Submission>, first: nat) {
    answers != [] && answers[0] == Accepted(first) && forall a <- answers :: a.Accepted?
  }

  /** It did so up to the last answer, which is s. */
  predicate AcceptedUntil(answers: seq<Submission>, first: nat, s: Submission) {
    && answers != [] && answers[|answers| - 1] == s && (answers[0].Accepted? ==> answers[0].n == first)
    && forall i :: 0 <= i < |answers| - 1 ==> answers[i].Accepted?
  }

  /** The first loop: control blocks for the first chunks, up to the capacity; the chunk at which the
      loop breaks is prepared but not counted, so it is not submitted yet. */
  method Prepare(fileSize: nat, maxEvents: nat, size: nat) returns (blocks: seq<Request>, taskNo: nat, offset: nat)
    requires maxEvents >= 1 && size >= 1
    ensures taskNo <= |blocks| && blocks[..taskNo] == Chunks(taskNo, size)
    ensures offset == Start(taskNo, size)
    ensures taskNo == FirstBatch(fileSize, maxEvents, size)
  {
    blocks, taskNo, offset := [], 0, 0;
    StartsInside(fileSize, size, 1);
    while taskNo < maxEvents
      invariant taskNo <= maxEvents && offset == Start(taskNo, size) && blocks == Chunks(taskNo, size)
      invariant taskNo > 0 ==> taskNo < ChunkCount(fileSize, size)
    {
      blocks := blocks + [Request(offset, offset, size)];
      StartsInside(fileSize, size, taskNo + 1);
      assert blocks[..taskNo] == Chunks(taskNo, size);
      if offset + size < fileSize {
        offset := offset + size;
      } else {
        break;
      }
      taskNo := taskNo + 1;
    }
    assert blocks[..taskNo] == Chunks(taskNo, size);
  }

  /** In the middle of reading: the kernel took `first` requests of the first batch and left `lost`; the
      next chunk is number `next`; `c` completions have been handled, `pending` more have been fetched. */
  ghost predicate Reading(ctx: AioContext, size: nat, first: nat, lost: nat, next: nat, c: nat, pending: nat)
    requires size > 0
    reads ctx, ctx.buf
  {
    var n, k := |ctx.submitted|, ChunkCount(|ctx.file|, size);
    && ctx.Valid()
    && AllAccepted(ctx.answers, first)
    && ctx.submitted == Taken(n, first, lost, size) && first <= n && next == n + lost && next <= k
    && |ctx.inflight| + c + pending == n
    && (next == k || n == c + first) && (first == 0 ==> n == 0 && lost == 0)
    && (forall r <- ctx.inflight :: r in ctx.submitted)
    && ctx.Intact()
  }

  /** The next chunk is new and overlaps nothing in flight. */
  lemma NextChunkIsNew(n: nat, first: nat, lost: nat, size: nat, r: Request)
    requires size > 0 && r in Taken(n, first, lost, size) && first <= n
    ensures r != Chunk(n + lost, size) && Disjoint(Chunk(n + lost, size), r)
  {
    var i :| 0 <= i < n && Taken(n, first, lost, size)[i] == r;
    ChunksApart(Nth(i, first, lost), n + lost, size);
  }

  /** A chunk of a file of several chunks that reaches beyond the buffer. */
  ghost predicate IsCulprit(ctx: AioContext, size: nat, r: Request)
    requires size > 0
  {
    && !ctx.InBuffer(r) && |ctx.file| > size
    && exists i: nat :: i < ChunkCount(|ctx.file|, size) && r == Chunk(i, size)
  }

  /** The submission ends the function, for a reason, after requests that were all in range. */
  ghost predicate Failed(ctx: AioContext, size: nat, first: nat, lost: nat, s: Submission)
    requires size > 0
    reads ctx
  {
    && AcceptedUntil(ctx.answers, first, s) && (s.Rejected? ==> ctx.refusing)
    && (s.OutOfBuffer? ==> IsCulprit(ctx, size, s.culprit))
    && (forall r <- ctx.submitted :: ctx.InBuffer(r)) && ctx.submitted == Taken(|ctx.submitted|, first, lost, size)
  }

  /** Submits the first batch. */
  method SubmitFirst(ctx: AioContext, size: nat, blocks: seq<Request>) returns (s: Submission)
    requires size > 0 && ctx.Valid() && ctx.inflight == {} && ctx.submitted == [] && ctx.answers == []
    requires blocks == Chunks(|blocks|, size) && |blocks| <= ctx.capacity
    requires blocks != [] ==> |blocks| < ChunkCount(|ctx.file|, size)
    modifies ctx`inflight, ctx`submitted, ctx`answers
    ensures ctx.answers == [s] && (!s.Accepted? ==> Failed(ctx, size, 0, 0, s) && blocks != [])
    ensures s.Accepted? ==> s.n <= |blocks| && (s.n == 0 <==> blocks == []) && (s.n < |blocks| ==> ctx.partial)
    ensures s.Accepted? ==> Reading(ctx, size, s.n, |blocks| - s.n, |blocks|, 0, 0)
  {
    forall i, j | 0 <= i < j < |blocks| ensures blocks[i] != blocks[j] && Disjoint(blocks[i], blocks[j]) {
      ChunksApart(i, j, size);
    }
    s := ctx.Submit(blocks);
    StartsInside(|ctx.file|, size, 1);
    if s.OutOfBuffer? {
      var i :| 0 <= i < |blocks| && blocks[i] == s.culprit;
      assert s.culprit == Chunk(i, size);
    } else if s.Accepted? {
      assert blocks[..s.n] == Taken(s.n, s.n, |blocks| - s.n, size);
    }
  }

  /** Submits one request for the chunk at `offset`, which is the next one. */
  method SubmitNext(ctx: AioContext, size: nat, offset: nat, ghost first: nat, ghost lost: nat) returns (s: Submission)
    requires size > 0 && ctx.Valid() && |ctx.inflight| < ctx.capacity && first <= |ctx.submitted|
    requires |ctx.file| > size && offset == Start(|ctx.submitted| + lost, size) < |ctx.file|
    requires ctx.submitted == Taken(|ctx.submitted|, first, lost, size)
    requires (forall r <- ctx.inflight :: r in ctx.submitted) && ctx.Intact() && AllAccepted(ctx.answers, first)
    modifies ctx`inflight, ctx`submitted, ctx`answers
    ensures if s.Accepted? then AllAccepted(ctx.answers, first) else Failed(ctx, size, first, lost, s)
    ensures s.Accepted? ==> ctx.Valid() && ctx.submitted == Taken(|old(ctx.submitted)| + 1, first, lost, size)
    ensures s.Accepted? ==> (forall r <- ctx.inflight :: r in ctx.submitted) && ctx.Intact()
    ensures s.Accepted? ==> |ctx.inflight| == |old(ctx.inflight)| + 1
  {
    ghost var n := |ctx.submitted|;
    var r := Request(offset, offset, size);
    StartsInside(|ctx.file|, size, n + lost);
    forall s | s in ctx.inflight ensures s != r && Disjoint(r, s) {
      NextChunkIsNew(n, first, lost, size, s);
    }
    s := ctx.Submit([r]);
    if s.Accepted? {
      assert s.n == 1 && [r][..1] == [r];
      assert Taken(n + 1, first, lost, size) == Taken(n, first, lost, size) + [Chunk(Nth(n, first, lost), size)];
    }
  }

  /** A completion is handled: as long as chunks are left, it launches the next one. */
  method LaunchNext(ctx: AioContext, size: nat, offset: nat, ghost first: nat, ghost lost: nat, ghost next: nat,
        ghost c: nat, ghost pending: nat)
    returns (s: Submission, offset': nat, ghost next': nat)
    requires size > 0 && first <= ctx.capacity && pending > 0 && |ctx.file| > size
    requires Reading(ctx, size, first, lost, next, c, pending) && offset == Start(next, size)
    modifies ctx`inflight, ctx`submitted, ctx`answers
    ensures !s.Accepted? ==> Failed(ctx, size, first, lost, s)
    ensures s.Accepted? ==> Reading(ctx, size, first, lost, next', c + 1, pending - 1) && offset' == Start(next', size)
  {
    s, offset', next' := Accepted(0), offset, next;
    StartsInside(|ctx.file|, size, next);
    if offset < |ctx.file| {
      s := SubmitNext(ctx, size, offset, first, lost);
      if s.Accepted? {
        offset', next' := offset + size, next + 1;
      }
    }
  }

  /** Waits for completions: what completed is in the buffer, and what was there before still is. */
  method Fetch(ctx: AioContext, size: nat, ghost first: nat, ghost lost: nat, ghost next: nat, ghost c: nat)
    returns (events: seq<Event>)
    requires size > 0 && ctx.capacity >= 1 && ctx.inflight != {}
    requires Reading(ctx, size, first, lost, next, c, 0)
    modifies ctx`inflight, ctx.buf
    ensures |events| >= 1 && Reading(ctx, size, first, lost, next, c, |events|)
    ensures forall i :: 0 <= i < |events| ==> events[i].obj.count == size
  {
    events := ctx.GetEvents(ctx.capacity);
    ghost var n := |ctx.submitted|;
    forall r | r in ctx.submitted && r !in ctx.inflight ensures ctx.Loaded(r) {
      if r !in old(ctx.inflight) {
        forall s, x: nat | s in old(ctx.inflight) && Covers(r, x) ensures !Covers(s, x) {
          TakenDisjoint(n, first, lost, size, r, s);
        }
        assert old(ctx.Loaded(r));
      }
    }
  }

  /** The inner loop: one launch and one addition to `ready` for each completion. */
  method HandleEvents(ctx: AioContext, size: nat, offset0: nat, ready0: nat, events: seq<Event>,
        ghost first: nat, ghost lost: nat, ghost next0: nat, ghost c: nat)
    returns (s: Submission, offset: nat, ready: nat, ghost next: nat)
    requires size > 0 && first <= ctx.capacity && ready0 == Start(c, size) && |ctx.file| > size
    requires Reading(ctx, size, first, lost, next0, c, |events|) && offset0 == Start(next0, size)
    requires forall i :: 0 <= i < |events| ==> events[i].obj.count == size
    modifies ctx`inflight, ctx`submitted, ctx`answers
    ensures !s.Accepted? ==> Failed(ctx, size, first, lost, s)
    ensures s.Accepted? ==> Reading(ctx, size, first, lost, next, c + |events|, 0)
    ensures s.Accepted? ==> offset == Start(next, size) && ready == Start(c + |events|, size)
  {
    s, offset, ready, next := Accepted(0), offset0, ready0, next0;
    for i := 0 to |events|
      invariant Reading(ctx, size, first, lost, next, c + i, |events| - i)
      invariant s.Accepted? && offset == Start(next, size) && ready == Start(c + i, size)
    {
      s, offset, next := LaunchNext(ctx, size, offset, first, lost, next, c + i, |events| - i);
      if !s.Accepted? {
        return;
      }
      ready := ready + events[i].obj.count;
    }
  }

  /** What ends the function early, as its caller sees it. */
  function Ending(s: Submission): Outcome
    requires !s.Accepted?
  {
    if s.Rejected? then Refused else Overruns(s.culprit)
  }

  /** How the function ends, once the kernel took `first` requests of the first batch and left `lost`, and what
      of the kernel's answers makes it end like that. */
  ghost predicate EndsWell(ctx: AioContext, size: nat, first: nat, lost: nat, out: Outcome)
    requires size > 0
    reads ctx
  {
    var k := ChunkCount(|ctx.file|, size);
    && (forall r <- ctx.submitted :: ctx.InBuffer(r)) && ctx.submitted == Taken(|ctx.submitted|, first, lost, size)
    && match out
       case Done(data) =>
         && data == ctx.file && |ctx.file| <= ctx.buf.Length && ctx.inflight == {} && lost == 0
         && ctx.submitted == Chunks(k, size) && AllAccepted(ctx.answers, first)
       case Refused => ctx.refusing && AcceptedUntil(ctx.answers, first, Rejected)
       case Overruns(r) => IsCulprit(ctx, size, r) && AcceptedUntil(ctx.answers, first, OutOfBuffer(r))
       case Hangs =>
         && ctx.inflight == {} && AllAccepted(ctx.answers, first)
         && (|ctx.file| <= size || (lost > 0 && |ctx.submitted| + lost == k))
  }

  /** Every byte belongs to a chunk. */
  lemma {:induction false} ChunkOf(x: nat, size: nat) returns (i: nat)
    requires size > 0
    ensures Start(i, size) <= x < Start(i, size) + size
  {
    if x < size {
      i := 0;
    } else {
      i := ChunkOf(x - size, size);
      i := i + 1;
    }
  }

  ghost predicate AllChunksLoaded(ctx: AioContext, size: nat)
    requires size > 0
    reads ctx, ctx.buf
  {
    && ctx.submitted == Chunks(ChunkCount(|ctx.file|, size), size)
    && ctx.Intact() && ctx.inflight == {}
  }

  lemma ByteLoaded(ctx: AioContext, size: nat, x: nat)
    requires size > 0 && AllChunksLoaded(ctx, size) && x < |ctx.file|
    ensures x < ctx.buf.Length && ctx.buf[x] == ctx.file[x]
  {
    var i := ChunkOf(x, size);
    StartsInside(|ctx.file|, size, i);
    assert ctx.submitted[i] == Chunk(i, size) && ctx.submitted[i] in ctx.submitted;
  }

  /** Once every chunk is loaded, the buffer starts with the file. */
  lemma AllLoaded(ctx: AioContext, size: nat)
    requires size > 0 && AllChunksLoaded(ctx, size)
    ensures |ctx.file| <= ctx.buf.Length && ctx.buf[..|ctx.file|] == ctx.file
  {
    if ctx.file != [] {
      ByteLoaded(ctx, size, |ctx.file| - 1);
    }
    forall x | 0 <= x < |ctx.file| ensures ctx.buf[x] == ctx.file[x] {
      ByteLoaded(ctx, size, x);
    }
  }

  /** With nothing in flight and the file not covered, the kernel left a chunk, or there was one at most. */
  lemma NothingComes(ctx: AioContext, size: nat, first: nat, lost: nat, next: nat, c: nat)
    requires size > 0 && Reading(ctx, size, first, lost, next, c, 0) && ctx.inflight == {}
    requires c == 0 || c < ChunkCount(|ctx.file|, size)
    requires first == 0 <==> |ctx.file| <= size
    ensures EndsWell(ctx, size, first, lost, Hangs)
  {
  }

  /** Completions that cover the file are those of all its chunks. */
  lemma AllTaken(ctx: AioContext, size: nat, first: nat, lost: nat, next: nat, c: nat)
    requires size > 0 && Reading(ctx, size, first, lost, next, c, 0) && c >= ChunkCount(|ctx.file|, size)
    ensures lost == 0 && AllChunksLoaded(ctx, size)
  {
  }

  lemma FileIsRead(ctx: AioContext, size: nat, first: nat, lost: nat, next: nat, c: nat)
    requires size > 0 && Reading(ctx, size, first, lost, next, c, 0) && c >= ChunkCount(|ctx.file|, size)
    ensures |ctx.file| <= ctx.buf.Length && EndsWell(ctx, size, first, lost, Done(ctx.buf[..|ctx.file|]))
  {
    AllTaken(ctx, size, first, lost, next, c);
    AllLoaded(ctx, size);
  }

  lemma EndsEarly(ctx: AioContext, size: nat, first: nat, lost: nat, s: Submission)
    requires size > 0 && !s.Accepted? && Failed(ctx, size, first, lost, s)
    ensures EndsWell(ctx, size, first, lost, Ending(s))
  {
  }

  /** One turn of the outer loop: wait, and handle what came. */
  method AwaitSome(ctx: AioContext, size: nat, offset0: nat, ready0: nat, ghost first: nat, ghost lost: nat,
        ghost next0: nat, ghost c0: nat)
    returns (s: Submission, offset: nat, ready: nat, ghost next: nat, ghost c: nat)
    requires size > 0 && 1 <= ctx.capacity && first <= ctx.capacity && |ctx.file| > size && ctx.inflight != {}
    requires Reading(ctx, size, first, lost, next0, c0, 0) && offset0 == Start(next0, size) && ready0 == Start(c0, size)
    modifies ctx`inflight, ctx`submitted, ctx`answers, ctx.buf
    ensures !s.Accepted? ==> Failed(ctx, size, first, lost, s)
    ensures s.Accepted? ==> c > c0 && (ready >= |ctx.file| <==> c >= ChunkCount(|ctx.file|, size))
    ensures s.Accepted? ==> Reading(ctx, size, first, lost, next, c, 0)
    ensures s.Accepted? ==> offset == Start(next, size) && ready == Start(c, size)
  {
    var events := Fetch(ctx, size, first, lost, next0, c0);
    s, offset, ready, next := HandleEvents(ctx, size, offset0, ready0, events, first, lost, next0, c0);
    c := c0 + |events|;
    StartsInside(|ctx.file|, size, c);
  }

  /** The outer loop: wait, handle what came, until `ready` reaches the size. */
  method AwaitAll(ctx: AioContext, size: nat, offset0: nat, ghost first: nat, ghost lost: nat, ghost next0: nat)
    returns (out: Outcome)
    requires size > 0 && 1 <= ctx.capacity && first <= ctx.capacity && (first == 0 <==> |ctx.file| <= size)
    requires Reading(ctx, size, first, lost, next0, 0, 0) && offset0 == Start(next0, size)
    modifies ctx`inflight, ctx`submitted, ctx`answers, ctx.buf
    ensures EndsWell(ctx, size, first, lost, out) && (first == 0 ==> out.Hangs?)
  {
    var offset, ready := offset0, 0;
    ghost var next, c := next0, 0;
    while true
      invariant Reading(ctx, size, first, lost, next, c, 0) && ready == Start(c, size) && offset == Start(next, size)
      invariant c == 0 || c < ChunkCount(|ctx.file|, size)
      decreases ChunkCount(|ctx.file|, size) - c
    {
      if ctx.inflight == {} {
        NothingComes(ctx, size, first, lost, next, c);
        return Hangs;
      }
      var s;
      s, offset, ready, next, c := AwaitSome(ctx, size, offset, ready, first, lost, next, c);
      if !s.Accepted? {
        EndsEarly(ctx, size, first, lost, s);
        return Ending(s);
      }
      if ready >= |ctx.file| {
        break;
      }
    }
    FileIsRead(ctx, size, first, lost, next, c);
    out := Done(ctx.buf[..|ctx.file|]);
  }

  /** `BatchReadByLibAIO` for any file, buffer, capacity and chunk size.  A file of at most one chunk makes
      it wait for ever, and otherwise only a kernel that leaves `lost` requests of the first batch, after all
      that was offered completed; a buffer that does not cover the chunks makes it ask for memory beyond it,
      unless it stops earlier.  It stops at the first answer that takes nothing, and at no other.  Otherwise
      it submits every chunk once, in order, and returns the file, with nothing in flight when the buffer is
      given up.  What it asked for before it ended was always in the buffer. */
  method BatchRead(ctx: AioContext, size: nat) returns (out: Outcome, ghost first: nat, ghost lost: nat)
    requires ctx.Valid() && ctx.inflight == {} && ctx.submitted == [] && ctx.answers == []
    requires ctx.capacity >= 1 && size >= 1
    modifies ctx`inflight, ctx`submitted, ctx`answers, ctx.buf
    ensures EndsWell(ctx, size, first, lost, out) && ctx.answers != []
    ensures ctx.answers[0].Accepted? ==>
      first == ctx.answers[0].n && first + lost == FirstBatch(|ctx.file|, ctx.capacity, size)
    ensures (|ctx.file| <= size ==> out.Hangs?) && (lost > 0 ==> ctx.partial)
  {
    first, lost := 0, 0;
    var blocks, taskNo, offset := Prepare(|ctx.file|, ctx.capacity, size);
    StartsInside(|ctx.file|, size, 1);
    var s := SubmitFirst(ctx, size, blocks[..taskNo]);
    if !s.Accepted? {
      out := Ending(s);
    } else {
      first, lost := s.n, taskNo - s.n;
      out := AwaitAll(ctx, size, offset, first, lost, taskNo);
    }
  }

  // ----- with the buffer that the source allocates

  const MAX_EVENT := 5

  /** Whole chunks that cover a file. */
  lemma ChunksCover(fileSize: nat)
    ensures Start(ChunkCount(fileSize, BufferSize.CHUNK), BufferSize.CHUNK) == BufferSize.CeilChunks(fileSize)
  {
    StartIsProduct(ChunkCount(fileSize, BufferSize.CHUNK), BufferSize.CHUNK);
  }

  /** A chunk beyond the buffer means that the buffer does not cover the file. */
  lemma CulpritMeansUnsafe(ctx: AioContext, r: Request)
    requires IsCulprit(ctx, BufferSize.CHUNK, r) && ctx.buf.Length == BufferSize.AlignSize(|ctx.file|)
    ensures !BufferSize.AlignSafe(|ctx.file|)
  {
    var k := ChunkCount(|ctx.file|, BufferSize.CHUNK);
    var i: nat :| i < k && r == Chunk(i, BufferSize.CHUNK);
    StartMonotone(i + 1, k, BufferSize.CHUNK);
    ChunksCover(|ctx.file|);
    BufferSize.AlignCoversIffSafe(|ctx.file|);
    BufferSize.AlignIsWhole(|ctx.file|);
  }

  /** The whole call.  It never returns a wrong file; with a kernel that takes everything, it reads beyond
      its buffer exactly when the file is longer than one chunk and single precision rounds its size down
      to a chunk boundary, and waits for ever exactly when the file is at most one chunk. */
  method BatchReadByLibAIO(file: seq<bv8>, refusing: bool, partial: bool)
    returns (out: Outcome, ghost submitted: seq<Request>, ghost answers: seq<Submission>, ghost first: nat)
    ensures |file| <= BufferSize.CHUNK ==> out.Hangs?
    ensures out.Hangs? ==>
      |file| <= BufferSize.CHUNK || (partial && first < FirstBatch(|file|, MAX_EVENT, BufferSize.CHUNK))
    ensures out.Overruns? ==> |file| > BufferSize.CHUNK && !BufferSize.AlignSafe(|file|)
    ensures out.Overruns? ==> out.culprit.addr + out.culprit.count > BufferSize.AlignSize(|file|)
    ensures forall r <- submitted :: r.addr + r.count <= BufferSize.AlignSize(|file|)
    ensures out.Refused? ==> refusing && AcceptedUntil(answers, first, Rejected)
    ensures out.Overruns? ==> AcceptedUntil(answers, first, OutOfBuffer(out.culprit))
    ensures out.Done? || out.Hangs? ==> AllAccepted(answers, first)
    ensures out.Done? ==> out.data == file && BufferSize.AlignSafe(|file|)
    ensures !refusing && !partial ==>
      (out.Overruns? <==> |file| > BufferSize.CHUNK && !BufferSize.AlignSafe(|file|))
  {
    var alignSize := BufferSize.AlignSize(|file|);
    var buf := new bv8[alignSize];
    var ctx := new AioContext(file, buf, MAX_EVENT, refusing, partial);
    ghost var lost;
    out, first, lost := BatchRead(ctx, BufferSize.CHUNK);
    submitted, answers := ctx.submitted, ctx.answers;
    if out.Overruns? {
      CulpritMeansUnsafe(ctx, out.culprit);
    } else if out.Done? {
      BufferSize.AlignCoversIffSafe(|file|);
    }
  }
}
