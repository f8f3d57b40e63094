/**
 The `select` server: one pass visits the ready descriptors of a set that it changes while it goes over
 it, and descriptor numbers that it closes may come back from `accept` in the same pass.
 */
module SelectServer {
  import opened FdSet
  import opened SelectBook
  import opened Sequences

  const BUFFER_SIZE := 1024

  /** An iterator into the ordered set: an element, or the end. */
  datatype Iter = At(fd: nat) | End

  /** A system call, with what it returned; for `select` also the bound and the set it was asked about. */
  datatype Call =
    | Accept(result: int) | Recv(fd: nat, result: int) | Send(fd: nat, result: int) | Close(fd: nat)
    | Select(nfds: nat, asked: set<nat>, ready: set<nat>)

  /** The kernel's side: the server's open sockets, and answers it is free to choose. */
  class Kernel {
    var open: set<nat>
    /** Every call so far. */
    ghost var calls: seq<Call>

    constructor (listening: nat)
      ensures open == {listening} && calls == []
    {
      open, calls := {listening}, [];
    }

    /** `accept`: fails, or returns a number that is not open. */
    method DoAccept() returns (fd: int)
      modifies this
      ensures calls == old(calls) + [Accept(fd)]
      ensures fd == -1 ==> open == old(open)
      ensures fd != -1 ==> 0 <= fd < FD_SETSIZE && fd !in old(open) && open == old(open) + {fd}
    {
      fd := *;
      if 0 <= fd < FD_SETSIZE && fd !in open {
        open := open + {fd};
      } else {
        fd := -1;
      }
      calls := calls + [Accept(fd)];
    }

    /** An error, or a number of bytes. */
    method Transferred() returns (n: int)
      ensures -1 <= n <= BUFFER_SIZE
    {
      n := *;
      if !(0 <= n <= BUFFER_SIZE) {
        n := -1;
      }
    }

    method DoRecv(fd: nat) returns (n: int)
      requires fd in open
      modifies this`calls
      ensures -1 <= n <= BUFFER_SIZE && calls == old(calls) + [Recv(fd, n)]
    {
      n := Transferred();
      calls := calls + [Recv(fd, n)];
    }

    method DoSend(fd: nat) returns (n: int)
      requires fd in open
      modifies this`calls
      ensures -1 <= n <= BUFFER_SIZE && calls == old(calls) + [Send(fd, n)]
    {
      n := Transferred();
      calls := calls + [Send(fd, n)];
    }

    method DoClose(fd: nat)
      requires fd in open
      modifies this
      ensures open == old(open) - {fd} && calls == old(calls) + [Close(fd)]
    {
      open := open - {fd};
      calls := calls + [Close(fd)];
    }

    /** `select`: some of the watched descriptors below nfds. */
    method DoSelect(nfds: nat, watched: seq<bv8>) returns (ready: set<nat>)
      modifies this`calls
      ensures calls == old(calls) + [Select(nfds, Members(watched), ready)]
      ensures forall fd <- ready :: fd < nfds && fd in Members(watched)
    {
      ready := {};
      for fd := 0 to nfds
        invariant forall g <- ready :: g < fd && g in Members(watched)
      {
        var chosen: bool := *;
        if chosen && IsSet(watched, fd) {
          ready := ready + {fd};
        }
      }
      calls := calls + [Select(nfds, Members(watched), ready)];
    }
  }

  predicate Ascending(s: seq<nat>) {
    forall i, j :: 0 <= i < j < |s| ==> s[i] < s[j]
  }

  /** No descriptor is read after it was accepted. */
  predicate NoFreshRead(log: seq<Call>) {
    forall i, j :: 0 <= i < j < |log| && log[i].Accept? && log[j].Recv? ==> log[j].fd != log[i].result
  }

  /** The calls that serve descriptor x: one accept, or one recv followed by the echo, or by the close if
      the recv failed or found the end of the stream. */
  predicate IsService(x: nat, listening: nat, part: seq<Call>) {
    if x == listening then |part| == 1 && part[0].Accept?
    else
      && |part| == 2 && part[0].Recv? && part[0].fd == x
      && if part[0].result <= 0 then part[1] == Close(x) else part[1].Send? && part[1].fd == x
  }

  predicate AreServices(handled: seq<nat>, listening: nat, parts: seq<seq<Call>>) {
    |parts| == |handled| && forall i :: 0 <= i < |handled| ==> IsService(handled[i], listening, parts[i])
  }

  /** The watched set after the calls: what was accepted joined it, what was closed and not accepted again
      left it. */
  ghost predicate Outcome(before: set<nat>, after: set<nat>, log: seq<Call>) {
    forall f: nat :: f in after <==> Accept(f) in log || (f in before && Close(f) !in log)
  }

  /** A whole pass. */
  ghost predicate IsPass(before: set<nat>, after: set<nat>, ready: set<nat>, listening: nat, handled: seq<nat>,
        parts: seq<seq<Call>>) {
    && Ascending(handled) && (forall f: nat :: f in handled <==> f in ready)
    && AreServices(handled, listening, parts)
    && NoFreshRead(Flat(parts)) && Outcome(before, after, Flat(parts))
  }

  /** Removing one of several descriptors keeps the cached maximum exact. */
  lemma MaxAfterRemove(b: Book, fd: nat)
    requires b.maxFd == MaxOf(b.fds) && fd in b.fds && b.fds != {fd}
    ensures RemoveFrom(b, fd).maxFd == MaxOf(RemoveFrom(b, fd).fds)
  {
    var left := b.fds - {fd};
    assert left == {} ==> b.fds == {fd};
    assert fd < b.maxFd ==> b.maxFd in left;
  }

  class Server {
    const kernel: Kernel
    const listening: nat
    const originSet: array<bv8>
    var fds: set<nat>
    var maxFd: nat

    ghost function View(): Book
      reads this, originSet
    {
      Book(Members(originSet[..]), fds, maxFd)
    }

    /** Bitmap, set and open sockets coincide, the listening socket is among them, all fit the bitmap, and the
        cached maximum is the maximum. */
    ghost predicate Valid()
      reads this, kernel, originSet
    {
      && originSet.Length == SET_BYTES
      && Members(originSet[..]) == fds == kernel.open
      && listening in fds && (forall y <- fds :: y < FD_SETSIZE)
      && maxFd == MaxOf(fds)
    }

    /** The start of `SelectINET`. */
    constructor (kernel: Kernel, listening: nat)
      requires listening < FD_SETSIZE && kernel.open == {listening}
      ensures Valid() && this.kernel == kernel && this.listening == listening && fds == {listening}
      ensures fresh(originSet)
    {
      this.kernel, this.listening := kernel, listening;
      originSet := new bv8[SET_BYTES];
      fds, maxFd := {}, 0;
      new;
      Zero(originSet);
      AddFd(listening);
    }

    method AddFd(fd: nat)
      requires fd < FD_SETSIZE && originSet.Length == SET_BYTES
      modifies this, originSet
      ensures View() == AddTo(old(View()), fd)
    {
      SetFd(originSet, fd);
      if fd > maxFd {
        maxFd := fd;
      }
      fds := fds + {fd};
    }

    /** The element after x. */
    method Next(x: int) returns (iter: Iter)
      ensures iter.End? ==> forall y <- fds :: y <= x
      ensures iter.At? ==> iter.fd in fds && iter.fd > x && forall y <- fds :: y <= x || y >= iter.fd
    {
      iter := End;
      var left := fds;
      while left != {}
        invariant left <= fds
        invariant iter.End? ==> forall y <- fds :: y in left || y <= x
        invariant iter.At? ==> iter.fd in fds && iter.fd > x && forall y <- fds :: y in left || y <= x || y >= iter.fd
        decreases |left|
      {
        var y :| y in left;
        left := left - {y};
        if y > x && (iter.End? || y < iter.fd) {
          iter := At(y);
        }
      }
    }

    /** `*fds.rbegin()`. */
    method Last() returns (m: nat)
      requires fds != {}
      ensures m == MaxOf(fds)
    {
      m :| m in fds;
      var left := fds;
      while left != {}
        invariant left <= fds && m in fds && forall y <- fds :: y in left || y <= m
        decreases |left|
      {
        var y :| y in left;
        left := left - {y};
        if y > m {
          m := y;
        }
      }
    }

    /** Removes what the iterator points at and moves it on. */
    method RemoveFd(fd: nat) returns (iter: Iter)
      requires fd in fds && fd < FD_SETSIZE && originSet.Length == SET_BYTES
      modifies this, originSet
      ensures View() == RemoveFrom(old(View()), fd)
      ensures iter.End? ==> forall y <- fds :: y <= fd
      ensures iter.At? ==> iter.fd in fds && iter.fd > fd && forall y <- fds :: y <= fd || y >= iter.fd
    {
      ClearFd(originSet, fd);
      fds := fds - {fd};
      iter := Next(fd);
      if fd >= maxFd && fds != {} {
        maxFd := Last();
      }
    }

    /** Where the loop stands: every watched descriptor from `bound` on is still ahead of the iterator. */
    ghost predicate Ahead(iter: Iter, bound: nat)
      reads this
    {
      match iter
      case End => forall y <- fds :: y < bound
      case At(x) => x in fds && x >= bound && forall y <- fds :: y < bound || y >= x
    }

    /** The listening socket is ready: accept once. */
    method HandleListening() returns (iter: Iter, ghost part: seq<Call>)
      requires Valid()
      modifies this, originSet, kernel
      ensures Valid() && Ahead(iter, listening + 1)
      ensures kernel.calls == old(kernel.calls) + part && Served(old(fds), fds, listening, listening, part)
    {
      var cfd := kernel.DoAccept();
      part := [Accept(cfd)];
      if cfd != -1 {
        AddFd(cfd);
      }
      iter := Next(listening);
    }

    /** The client is gone: take it out of all three books and close it. */
    method Forget(x: nat) returns (iter: Iter)
      requires Valid() && x in fds && x != listening
      modifies this, originSet, kernel
      ensures Valid() && fds == old(fds) - {x} && Ahead(iter, x + 1)
      ensures kernel.calls == old(kernel.calls) + [Close(x)]
    {
      iter := RemoveFd(x);
      kernel.DoClose(x);
      MaxAfterRemove(old(View()), x);
    }

    /** A client is ready: receive, then echo, or on an end of stream or an error forget it. */
    method HandleClient(x: nat) returns (iter: Iter, ghost part: seq<Call>)
      requires Valid() && x in fds && x != listening
      modifies this, originSet, kernel
      ensures Valid() && Ahead(iter, x + 1)
      ensures kernel.calls == old(kernel.calls) + part && Served(old(fds), fds, x, listening, part)
    {
      var ret := kernel.DoRecv(x);
      if ret <= 0 {
        part := [Recv(x, ret), Close(x)];
        iter := Forget(x);
      } else {
        var sent := kernel.DoSend(x);
        part := [Recv(x, ret), Send(x, sent)];
        iter := Next(x);
      }
    }

    /** A ready descriptor is served. */
    method Serve(x: nat) returns (iter: Iter, ghost part: seq<Call>)
      requires Valid() && x in fds
      modifies this, originSet, kernel
      ensures Valid() && Ahead(iter, x + 1)
      ensures kernel.calls == old(kernel.calls) + part && Served(old(fds), fds, x, listening, part)
    {
      if x == listening {
        iter, part := HandleListening();
      } else {
        iter, part := HandleClient(x);
      }
    }

    /** The iterator stands at a ready descriptor: serve it and move on. */
    method ServeNext(x: nat, ghost start: set<nat>, ghost ready: set<nat>, ghost bound: nat,
          ghost handled: seq<nat>, ghost parts: seq<seq<Call>>)
      returns (iter: Iter, ghost part: seq<Call>)
      requires Valid() && Ahead(At(x), bound) && x in ready
      requires Progress(start, fds, ready, listening, bound, handled, parts)
      modifies this, originSet, kernel
      ensures Valid() && Ahead(iter, x + 1)
      ensures kernel.calls == old(kernel.calls) + part && Flat(parts + [part]) == Flat(parts) + part
      ensures Progress(start, fds, ready, listening, x + 1, handled + [x], parts + [part])
    {
      iter, part := Serve(x);
      Advance(start, old(fds), fds, ready, listening, bound, handled, parts, x, part);
    }

    /** One pass over the set after `select` returned: it serves the ready descriptors in ascending order,
        each once, and no other; it reads none that it accepted itself, even if that has the number of one
        it closed before.  `parts` are the calls made for each. */
    method Pass(ready: set<nat>) returns (ghost handled: seq<nat>, ghost parts: seq<seq<Call>>)
      requires Valid() && ready <= fds
      modifies this, originSet, kernel
      ensures Valid() && kernel.calls == old(kernel.calls) + Flat(parts)
      ensures IsPass(old(fds), fds, ready, listening, handled, parts)
    {
      handled, parts := [], [];
      ghost var start, calls := fds, kernel.calls;
      ghost var bound := 0;
      var iter := Next(-1);
      while iter.At?
        invariant Valid() && Ahead(iter, bound)
        invariant kernel.calls == calls + Flat(parts)
        invariant Progress(start, fds, ready, listening, bound, handled, parts)
        decreases FD_SETSIZE - bound
      {
        var x := iter.fd;
        if x !in ready {
          iter := Next(x);
          SkipOne(start, fds, ready, listening, bound, Flat(parts), handled, x);
        } else {
          ghost var part;
          iter, part := ServeNext(x, start, ready, bound, handled, parts);
          Associative(calls, Flat(parts), part);
          handled, parts := handled + [x], parts + [part];
        }
        bound := x + 1;
      }
      PassIsOver(start, fds, ready, listening, bound, handled, parts);
    }

    /** The line that is printed is the watched set. */
    method ShowSet() returns (text: string)
      requires originSet.Length == SET_BYTES
      ensures Parse(text) == Members(originSet[..])
    {
      text := PrintSet(originSet[..]);
      ParseRecovers(text, originSet[..]);
    }

    /** `select`: every watched descriptor is below the bound, and the set in memory is the watched one. */
    method Ask() returns (ready: set<nat>, ghost bound: nat)
      requires Valid()
      modifies kernel`calls
      ensures Valid() && AsksAll(fds, bound, fds, ready)
      ensures kernel.calls == old(kernel.calls) + [Select(bound, fds, ready)]
    {
      bound := maxFd + 1;
      ready := kernel.DoSelect(maxFd + 1, originSet[..]);
    }

    /** Ask about every watched descriptor, and go over the set. */
    method AskAndPass() returns (ghost log: TurnLog)
      requires Valid()
      modifies this, originSet, kernel
      ensures Valid() && kernel.calls == old(kernel.calls) + Made(log) && log.before == old(fds) && log.after == fds
      ensures AsksAll(log.before, log.nfds, log.asked, log.ready)
      ensures IsPass(log.before, log.after, log.ready, listening, log.handled, log.parts)
    {
      ghost var calls, before, bound, handled, parts := kernel.calls, fds, 0, [], [];
      var ready;
      ready, bound := Ask();
      handled, parts := Pass(ready);
      log := TurnLog(before, bound, before, ready, handled, parts, fds);
      MadeAfter(calls, log);
    }

    /** One turn of the loop: print the bitmap, then the `select` and the pass. */
    method Turn() returns (text: string, ghost log: TurnLog)
      requires Valid()
      modifies this, originSet, kernel
      ensures Valid() && kernel.calls == old(kernel.calls) + Made(log) && log.before == old(fds) && log.after == fds
      ensures IsTurn(text, log, listening)
    {
      text := ShowSet();
      log := AskAndPass();
    }

    /** `SelectINET`, any number of turns, each starting with the watched set in which the one before ended.
        What is printed each time is that set; the books agree throughout. */
    method SelectINET(turns: nat) returns (printed: seq<string>, ghost logs: seq<TurnLog>)
      requires Valid()
      modifies this, originSet, kernel
      ensures Valid()
      ensures |printed| == |logs| == turns && AreTurns(printed, logs, listening)
      ensures Chained(old(fds), logs, fds) && kernel.calls == old(kernel.calls) + AllMade(logs)
    {
      printed, logs := [], [];
      for turn := 0 to turns
        invariant Valid()
        invariant |printed| == |logs| == turn && AreTurns(printed, logs, listening)
        invariant Chained(old(fds), logs, fds) && kernel.calls == old(kernel.calls) + AllMade(logs)
      {
        ghost var log;
        var text;
        text, log := Turn();
        ChainOne(old(fds), logs, log);
        Associative(old(kernel.calls), AllMade(logs), Made(log));
        printed, logs := printed + [text], logs + [log];
      }
    }
  }

  /** One turn: the set watched before it, the bound and the set that `select` was asked about and what it
      reported, what was handled by which calls, the set after it. */
  datatype TurnLog = TurnLog(
    before: set<nat>,
    nfds: nat,
    asked: set<nat>,
    ready: set<nat>,
    handled: seq<nat>,
    parts: seq<seq<Call>>,
    after: set<nat>)

  /** The calls of a turn: one `select`, then those of the pass. */
  function Made(log: TurnLog): seq<Call> {
    [Select(log.nfds, log.asked, log.ready)] + Flat(log.parts)
  }

  function AllMade(logs: seq<TurnLog>): seq<Call> {
    if logs == [] then [] else AllMade(logs[..|logs| - 1]) + Made(logs[|logs| - 1])
  }

  lemma MadeAfter(calls: seq<Call>, log: TurnLog)
    ensures calls + [Select(log.nfds, log.asked, log.ready)] + Flat(log.parts) == calls + Made(log)
  {
    Associative(calls, [Select(log.nfds, log.asked, log.ready)], Flat(log.parts));
  }

  /** `select` was asked about exactly the watched set, with the least bound that leaves none of it out. */
  ghost predicate AsksAll(watched: set<nat>, nfds: nat, asked: set<nat>, ready: set<nat>) {
    asked == watched && (forall fd <- watched :: fd < nfds) && nfds - 1 in watched && ready <= watched
  }

  /** What was printed is the watched set, `select` was asked about it, and what it reported was gone over. */
  ghost predicate IsTurn(text: string, log: TurnLog, listening: nat) {
    && Parse(text) == log.before && listening in log.before && AsksAll(log.before, log.nfds, log.asked, log.ready)
    && IsPass(log.before, log.after, log.ready, listening, log.handled, log.parts)
  }

  ghost predicate AreTurns(printed: seq<string>, logs: seq<TurnLog>, listening: nat)
    requires |printed| == |logs|
  {
    forall i :: 0 <= i < |logs| ==> IsTurn(printed[i], logs[i], listening)
  }

  /** From the set `first` through the turns to the set `last`. */
  ghost predicate Chained(first: set<nat>, logs: seq<TurnLog>, last: set<nat>) {
    if logs == [] then last == first
    else Chained(first, logs[..|logs| - 1], logs[|logs| - 1].before) && logs[|logs| - 1].after == last
  }

  lemma ChainOne(first: set<nat>, logs: seq<TurnLog>, log: TurnLog)
    requires Chained(first, logs, log.before)
    ensures Chained(first, logs + [log], log.after) && AllMade(logs + [log]) == AllMade(logs) + Made(log)
  {
    assert (logs + [log])[..|logs|] == logs;
  }

  lemma MoreServices(handled: seq<nat>, listening: nat, parts: seq<seq<Call>>, x: nat, part: seq<Call>)
    requires AreServices(handled, listening, parts) && IsService(x, listening, part)
    ensures AreServices(handled + [x], listening, parts + [part])
    ensures Flat(parts + [part]) == Flat(parts) + part
  {
    assert (parts + [part])[..|parts|] == parts;
  }

  /** What serving x may do. */
  ghost predicate Served(before: set<nat>, after: set<nat>, x: nat, listening: nat, part: seq<Call>) {
    && IsService(x, listening, part)
    && if x == listening then
         if part[0].result == -1 then after == before
         else part[0].result >= 0 && part[0].result !in before && after == before + {part[0].result}
       else after == if part[1].Close? then before - {x} else before
  }

  /** The pass up to, not including, descriptor `bound`. */
  ghost predicate SoFar(start: set<nat>, now: set<nat>, ready: set<nat>, listening: nat, bound: nat, log: seq<Call>) {
    && NoFreshRead(log)
    && (forall f <- ready :: f >= bound ==> f in now)
    && (forall f: nat :: Accept(f) in log ==> f < bound || f !in ready)
    && Outcome(start, now, log)
  }

  /** The ready descriptors below the bound, in ascending order. */
  predicate Visited(handled: seq<nat>, ready: set<nat>, bound: nat) {
    && Ascending(handled)
    && (forall i :: 0 <= i < |handled| ==> handled[i] in ready && handled[i] < bound)
    && (forall f <- ready :: f < bound ==> f in handled)
  }

  ghost predicate Progress(start: set<nat>, now: set<nat>, ready: set<nat>, listening: nat, bound: nat,
        handled: seq<nat>, parts: seq<seq<Call>>) {
    && Visited(handled, ready, bound) && AreServices(handled, listening, parts)
    && SoFar(start, now, ready, listening, bound, Flat(parts))
  }

  /** Nothing watched is left ahead, so nothing ready is. */
  lemma PassIsOver(start: set<nat>, now: set<nat>, ready: set<nat>, listening: nat, bound: nat,
        handled: seq<nat>, parts: seq<seq<Call>>)
    requires Progress(start, now, ready, listening, bound, handled, parts) && forall y <- now :: y < bound
    ensures IsPass(start, now, ready, listening, handled, parts)
  {
  }

  lemma Advance(start: set<nat>, now: set<nat>, next: set<nat>, ready: set<nat>, listening: nat, bound: nat,
        handled: seq<nat>, parts: seq<seq<Call>>, x: nat, part: seq<Call>)
    requires Progress(start, now, ready, listening, bound, handled, parts) && Served(now, next, x, listening, part)
    requires x in ready && x >= bound && forall y <- now :: y < bound || y >= x
    ensures Progress(start, next, ready, listening, x + 1, handled + [x], parts + [part])
    ensures Flat(parts + [part]) == Flat(parts) + part
  {
    ServeOne(start, now, next, ready, listening, bound, Flat(parts), x, part);
    VisitOne(now, ready, bound, handled, x);
    MoreServices(handled, listening, parts, x, part);
  }

  /** Between the bound and the iterator there is nothing. */
  lemma SkipOne(start: set<nat>, now: set<nat>, ready: set<nat>, listening: nat, bound: nat, log: seq<Call>,
        handled: seq<nat>, x: nat)
    requires SoFar(start, now, ready, listening, bound, log) && Visited(handled, ready, bound)
    requires x !in ready && x >= bound && forall y <- now :: y < bound || y >= x
    ensures SoFar(start, now, ready, listening, x + 1, log) && Visited(handled, ready, x + 1)
  {
    assert forall f <- ready :: bound <= f < x + 1 ==> f in now && f != x;
  }

  lemma VisitOne(now: set<nat>, ready: set<nat>, bound: nat, handled: seq<nat>, x: nat)
    requires Visited(handled, ready, bound) && (forall f <- ready :: f >= bound ==> f in now)
    requires x in ready && x >= bound && forall y <- now :: y < bound || y >= x
    ensures Visited(handled + [x], ready, x + 1)
  {
    forall f | f in ready && f < x + 1 ensures f in handled + [x] {
      if f != x {
        assert f < bound && f in handled;
      }
    }
  }

  lemma ServeOne(start: set<nat>, now: set<nat>, next: set<nat>, ready: set<nat>, listening: nat, bound: nat,
        log: seq<Call>, x: nat, part: seq<Call>)
    requires SoFar(start, now, ready, listening, bound, log) && Served(now, next, x, listening, part)
    requires x in ready && x >= bound && forall y <- now :: y < bound || y >= x
    ensures SoFar(start, next, ready, listening, x + 1, log + part)
  {
    assert forall f <- ready :: bound <= f < x + 1 ==> f in now && f == x;
    assert Accept(x) !in log;
    assert forall d :: d in log + part <==> d in log || d in part;
  }
}
