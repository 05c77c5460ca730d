/** The event loop of vsockproxy: paired sockets with one in-place buffer per half, epoll masks
    recomputed from the buffers, recursive pair teardown and frees deferred to the end of a batch.

    Results of system calls are parameters, so a contract that mentions none of them holds for
    every behaviour of the kernel and of both peers. */
module VsockProxy {
  import opened Environment

  const MAX_EVENTS := 64
  const RECV_BUF_SIZE := 1024 * 1024
  const CLOSED_CAPACITY := 2 * MAX_EVENTS + 2
  const U64_MODULUS := 0x1_0000_0000_0000_0000

  /** The part of an epoll registration that varies; hang-up and error are always requested. */
  datatype Mask = Mask(epollin: bool, epollout: bool)

  datatype Interest = Interest(ptr: Client, mask: Mask)

  /** The bits of one reported event. They may be stale: nothing relates them to the mask. */
  datatype Ready = Ready(epollin: bool, epollout: bool, hangup: bool)

  /** read(): bytes (none at end of file), or -1 with errno EAGAIN or another one. */
  datatype ReadResult = ReadBytes(data: seq<byte>) | ReadError(again: bool)

  /** send(): the returned count, not positive on failure, and whether errno is then EAGAIN. */
  datatype SendResult = SendResult(count: int, again: bool)

  datatype ConnectResult = Connected | InProgress | ConnectFailed

  /** getsockopt(SO_ERROR): the call fails, reports a connect error, or reports success. */
  datatype SocketError = Unavailable | ConnectError | NoError

  datatype AcceptResult = AcceptResult(
    rxSock: Option<nat>, allowed: bool, rxNonblock: bool,
    txSock: Option<nat>, txNonblock: bool, connect: ConnectResult)

  /** Results of every system call the handling of one event may make. */
  datatype Outcome = Outcome(
    accept: AcceptResult, read: ReadResult, sendIn: SendResult, sendOut: SendResult,
    sockError: SocketError, del: bool, add0: bool, add1: bool,
    modIn0: bool, modIn1: bool, modOut0: bool, modOut1: bool)

  datatype Event = Event(ptr: Client, ready: Ready, outcome: Outcome)

  /** A wakeup the environment proposes; it becomes an event if `fd` is registered. */
  datatype Wakeup = Wakeup(fd: int, ready: Ready, outcome: Outcome)

  /** How one stage of the batch loop body ends. */
  datatype Flow = FallThrough | Continue | Break

  /** What a read into a buffer with `room` free bytes yields. */
  function Got(r: ReadResult, room: nat): seq<byte>
  {
    match r
    case ReadBytes(data) => if |data| <= room then data else data[..room]
    case ReadError(_) => []
  }

  /** How many of `len` offered bytes the socket took. */
  function Taken(s: SendResult, len: nat): (n: nat)
    ensures n <= len
  {
    if s.count <= 0 then 0 else if s.count <= len then s.count else len
  }

  /** What a send of `offered` means for the stream: as many bytes as the kernel counts, from the
      front, have gone and the others are left; a failing send takes none. */
  ghost predicate Sends(r: SendResult, offered: seq<byte>, before: seq<byte>, after: seq<byte>,
      left: nat)
  {
    && (0 < r.count <= |offered| ==>
          after == before + offered[..r.count] && left == |offered| - r.count)
    && (r.count <= 0 ==> after == before && left == |offered|)
  }

  class Client {
    const sock: int
    const buf: array<byte>
    var connected: bool
    var closed: bool
    var sibling: Client?
    var bufSize: nat
    var rxBytesTotal: nat
    var txBytesTotal: nat
    /** Every byte ever read from, and ever sent to, this half's socket. */
    ghost var received: seq<byte>
    ghost var sent: seq<byte>
    /** Where a closed client is queued. */
    ghost var queueIndex: nat

    constructor (sock: int, connected: bool, capacity: nat, sibling: Client?)
      ensures this.sock == sock && this.connected == connected
      ensures !closed && this.sibling == sibling && bufSize == 0
      ensures buf.Length == capacity && fresh(buf)
      ensures rxBytesTotal == 0 && txBytesTotal == 0 && received == [] && sent == []
    {
      this.sock, this.connected, this.sibling := sock, connected, sibling;
      closed, bufSize := false, 0;
      rxBytesTotal, txBytesTotal := 0, 0;
      received, sent := [], [];
      buf := new byte[capacity](_ => 0);
    }

    ghost predicate Counted()
      reads this
    {
      && bufSize <= buf.Length
      && rxBytesTotal == |received| % U64_MODULUS
      && txBytesTotal == |sent| % U64_MODULUS
    }

    ghost function Buffered(): seq<byte>
      requires bufSize <= buf.Length
      reads this, buf
    {
      buf[..bufSize]
    }

    /** A read of `got` into the empty buffer. */
    method Fill(got: seq<byte>)
      requires Counted() && bufSize == 0 && |got| <= buf.Length
      modifies `bufSize, `rxBytesTotal, `received, buf
      ensures Counted() && Buffered() == got && received == old(received) + got
    {
      forall i | 0 <= i < |got| {
        buf[i] := got[i];
      }
      bufSize := |got|;
      rxBytesTotal := (rxBytesTotal + |got|) % U64_MODULUS;
      received := received + got;
    }

    /** Drops the first `n` buffered bytes by moving the rest to the front of the buffer. */
    method Drain(n: nat)
      requires Counted() && n <= bufSize
      modifies `bufSize, buf
      ensures Counted() && bufSize == old(bufSize) - n && Buffered() == old(Buffered())[n..]
    {
      bufSize := bufSize - n;
      forall i | 0 <= i < bufSize {
        buf[i] := buf[n + i];
      }
    }

    /** Accounts for bytes the socket took. */
    method Account(bytes: seq<byte>)
      requires Counted()
      modifies `txBytesTotal, `sent
      ensures Counted() && sent == old(sent) + bytes
    {
      txBytesTotal := (txBytesTotal + |bytes|) % U64_MODULUS;
      sent := sent + bytes;
    }
  }

  /** The process together with the kernel state it depends on. */
  class Proxy {
    const listen: Client
    const epfd: int
    const closedClients: array<Client?>
    var closedCount: nat
    /** Kernel: open descriptors, and the registrations of the epoll instance. */
    var fds: set<int>
    var interest: map<int, Interest>
    /** Clients that are allocated and not yet freed; the open client behind each descriptor. */
    ghost var heap: set<Client>
    ghost var owner: map<int, Client>
    ghost var bufOwner: map<array<byte>, Client>

    // ---------- Invariant ----------

    ghost predicate Registered(c: Client)
      reads `interest
    {
      c.sock in interest && interest[c.sock].ptr == c
    }

    /** Memory and link safety of one allocated client: a buffer of its own, a sibling pointer
        that does not dangle, a descriptor while it is open and a place in the queue after. */
    ghost predicate Sound(c: Client)
      reads `heap, `owner, `bufOwner, `closedCount, c, c.sibling, closedClients
    {
      && c.buf.Length == RECV_BUF_SIZE && c.bufSize <= RECV_BUF_SIZE
      && c.buf in bufOwner && bufOwner[c.buf] == c
      && (c.sibling != null ==> c.sibling in heap && c.sibling != c && c.sibling.sibling == c)
      && (!c.closed ==> c.sock in owner && owner[c.sock] == c)
      && (c.closed ==> c.queueIndex < closedCount <= closedClients.Length
                       && closedClients[c.queueIndex] == c)
    }

    /** What was read is what the sibling sent, followed by what is still buffered. */
    ghost predicate Stream(c: Client)
      reads c, c.sibling, c.buf
    {
      && c.Counted()
      && c.received == (if c.sibling == null then [] else c.sibling.sent) + c.Buffered()
    }

    /** Descriptors are owned by exactly one open client; epoll holds only open clients. */
    ghost predicate Owners()
      reads `heap, `owner, `interest, heap
    {
      && listen.sock !in owner && epfd !in owner && listen.sock != epfd
      && (forall f {:trigger owner[f]} | f in owner ::
            owner[f] in heap && !owner[f].closed && owner[f].sock == f)
      && Registered(listen)
      && (forall f {:trigger interest[f]} | f in interest ::
            f == listen.sock || (f in owner && interest[f].ptr == owner[f]))
    }

    ghost predicate Descriptors()
      reads `heap, `owner, `fds, `interest, heap
    {
      Owners() && fds == owner.Keys + {listen.sock, epfd}
    }

    /** The clients awaiting their free are closed and each queued once. */
    ghost predicate Queue()
      reads `heap, `closedCount, heap, closedClients
    {
      && closedClients.Length == CLOSED_CAPACITY && closedCount <= CLOSED_CAPACITY
      && forall i {:trigger closedClients[i]} | 0 <= i < closedCount ::
            closedClients[i] in heap && closedClients[i].closed && closedClients[i].queueIndex == i
    }

    ghost predicate AllSound()
      reads `heap, `owner, `bufOwner, `closedCount, heap, closedClients, set c <- heap :: c.sibling
    {
      forall c {:trigger Sound(c)} | c in heap :: Sound(c)
    }

    ghost predicate AllStreams()
      reads `heap, heap, (set c <- heap :: c.sibling), set c <- heap :: c.buf
    {
      forall c {:trigger Stream(c)} | c in heap :: Stream(c)
    }

    ghost predicate Core()
      reads this, heap, listen, closedClients, (set c <- heap :: c.sibling), set c <- heap :: c.buf
    {
      && listen !in heap && !listen.closed
      && Descriptors() && Queue() && AllSound() && AllStreams()
    }

    /** An open client has an open sibling and the epoll registration its buffers call for. */
    ghost predicate Settled(c: Client)
      reads `interest, c, c.sibling
    {
      !c.closed ==>
        && c.sibling != null && !c.sibling.closed
        && (c.connected || c.sibling.connected)
        && if c.connected && c.sibling.connected then
             Registered(c) && interest[c.sock].mask == Mask(c.bufSize == 0, c.sibling.bufSize > 0)
           else
             && c.bufSize == 0 && c.sibling.bufSize == 0
             && if c.connected then c.sock !in interest
                else Registered(c) && interest[c.sock].mask == Mask(true, true)
    }

    /** Every allocated client outside the pair of `x` is settled. */
    ghost predicate SettledBut(x: Client?)
      reads `heap, `interest, x, heap, set c <- heap :: c.sibling
    {
      forall c {:trigger Settled(c)} | c in heap ::
        c != x && (x != null ==> c != x.sibling) ==> Settled(c)
    }

    ghost predicate Valid()
      reads this, heap, listen, closedClients, (set c <- heap :: c.sibling), set c <- heap :: c.buf
    {
      Core() && SettledBut(null)
    }

    // ---------- Teardown ----------

    /** Start-up: only the listening socket is registered and nothing is allocated or queued. */
    constructor (listenSock: int, epfd: int)
      requires listenSock != epfd
      ensures Valid() && heap == {} && closedCount == 0
      ensures listen.sock == listenSock && this.epfd == epfd
    {
      var l := new Client(listenSock, false, 0, null);
      listen, this.epfd := l, epfd;
      closedClients := new Client?[CLOSED_CAPACITY](_ => null);
      closedCount, heap, owner, bufOwner := 0, {}, map[], map[];
      fds, interest := {listenSock, epfd}, map[listenSock := Interest(l, Mask(true, true))];
    }

    ghost function OpenCount(c: Client?): nat
      reads c
    {
      if c == null || c.closed then 0 else 1
    }

    ghost function OpenSocks(c: Client?): set<int>
      reads c
    {
      if c == null || c.closed then {} else {c.sock}
    }

    method QueueFree(data: Client)
      requires closedClients.Length == CLOSED_CAPACITY && closedCount <= CLOSED_CAPACITY
      modifies this`closedCount, closedClients, data`queueIndex
      ensures old(closedCount) == CLOSED_CAPACITY ==>
        closedCount == old(closedCount) && closedClients[..] == old(closedClients[..])
      ensures old(closedCount) < CLOSED_CAPACITY ==>
        && closedCount == old(closedCount) + 1
        && data.queueIndex == old(closedCount) && closedClients[data.queueIndex] == data
        && forall i | 0 <= i < old(closedCount) :: closedClients[i] == old(closedClients[i])
    {
      if closedCount >= closedClients.Length {
        return;
      }
      closedClients[closedCount] := data;
      data.queueIndex := closedCount;
      closedCount := closedCount + 1;
    }

    /** The effect of closing `data` alone, in terms of the state before. */
    twostate predicate Dropped(data: Client)
      reads this, heap, data, closedClients
    {
      && heap == old(heap) && bufOwner == old(bufOwner)
      && data.closed && data.queueIndex == old(closedCount) && closedCount == old(closedCount) + 1
      && closedCount <= closedClients.Length && closedClients[data.queueIndex] == data
      && (forall i | 0 <= i < old(closedCount) :: closedClients[i] == old(closedClients[i]))
      && (forall c <- heap :: c != data ==> c.closed == old(c.closed) && c.queueIndex == old(c.queueIndex))
      && (forall c <- heap :: c.sibling == old(c.sibling) && c.bufSize == old(c.bufSize))
      && interest == old(interest) - {data.sock}
      && fds == old(fds) - {data.sock}
      && owner == old(owner) - {data.sock}
    }

    twostate lemma DroppedKeepsGlobals(data: Client)
      requires old(Descriptors()) && old(Queue()) && data in old(heap)
      requires old(Sound(data)) && !old(data.closed) && Dropped(data)
      ensures Descriptors() && Queue()
    {
    }

    twostate lemma DroppedKeepsSound(data: Client)
      requires old(Descriptors()) && old(Queue()) && data in old(heap) && !old(data.closed)
      requires old(AllSound()) && Dropped(data)
      ensures AllSound()
    {
      assert old(Sound(data));
      forall c | c in heap ensures Sound(c) {
        assert old(Sound(c));
      }
    }

    twostate lemma DroppedKeepsSettled(data: Client)
      requires old(Descriptors()) && old(AllSound()) && data in old(heap) && !old(data.closed)
      requires Dropped(data)
      requires forall c <- heap :: c.connected == old(c.connected)
      ensures old(SettledBut(data)) ==> SettledBut(data)
    {
      if old(SettledBut(data)) {
        forall c | c in heap && c != data && c != data.sibling ensures Settled(c) {
          assert old(Settled(c)) && old(Sound(c)) && old(Sound(data));
        }
      }
    }

    /** Streams depend on no flag, registration or descriptor. */
    twostate lemma StreamsKept()
      requires old(AllStreams()) && old(AllSound()) && heap == old(heap)
      requires forall c <- heap ::
        && c.sibling == old(c.sibling) && c.bufSize == old(c.bufSize)
        && c.received == old(c.received) && c.sent == old(c.sent)
        && c.rxBytesTotal == old(c.rxBytesTotal) && c.txBytesTotal == old(c.txBytesTotal)
      requires forall c <- heap :: unchanged(c.buf)
      ensures AllStreams()
    {
      forall c | c in heap ensures Stream(c) {
        assert old(Stream(c)) && old(Sound(c));
      }
    }

    /** Marks one open client closed, drops its registration and descriptor and queues its free. */
    method CloseOne(data: Client)
      requires Core() && data in heap && !data.closed && closedCount < CLOSED_CAPACITY
      modifies this`closedCount, this`fds, this`interest, this`owner, closedClients
      modifies data`closed, data`queueIndex
      ensures Core() && Dropped(data)
      ensures old(SettledBut(data)) ==> SettledBut(data)
    {
      assert Sound(data);
      data.closed := true;
      interest := interest - {data.sock};
      fds := fds - {data.sock};
      owner := owner - {data.sock};
      QueueFree(data);
      DroppedKeepsGlobals(data);
      DroppedKeepsSound(data);
      DroppedKeepsSettled(data);
      StreamsKept();
    }

    /** Closes `data` and, through the sibling link, the other half of its pair. No other client
        changes, no descriptor is closed twice, and the queue has room for every closed client. */
    method CloseConnections(data: Client?)
      requires Core() && (data != null ==> data in heap)
      requires data != null ==>
        closedCount + OpenCount(data) + OpenCount(data.sibling) <= CLOSED_CAPACITY
      requires data != null && data.closed && data.sibling != null ==> data.sibling.closed
      modifies this`closedCount, this`fds, this`interest, this`owner, closedClients
      modifies if data == null then {} else {data, data.sibling}`closed
      modifies if data == null then {} else {data, data.sibling}`queueIndex
      ensures Core()
      ensures data == null || old(data.closed) ==>
        closedCount == old(closedCount) && fds == old(fds) && interest == old(interest)
      ensures data != null ==>
        && data.closed && (data.sibling != null ==> data.sibling.closed)
        && closedCount == old(closedCount) + old(OpenCount(data)) + old(OpenCount(data.sibling))
        && fds == old(fds) - old(OpenSocks(data)) - old(OpenSocks(data.sibling))
      ensures old(SettledBut(data)) ==> SettledBut(null)
      decreases OpenCount(data) + (if data == null then 0 else OpenCount(data.sibling))
    {
      if data == null || data.closed {
        return;
      }
      assert Sound(data);
      assert data.sibling != null ==> Sound(data.sibling);
      CloseOne(data);
      CloseConnections(data.sibling);
    }

    /** Closing either half of an open pair closes the pair. */
    method ClosePair(data: Client)
      requires Core() && SettledBut(data) && closedCount + 2 <= CLOSED_CAPACITY
      requires data in heap && !data.closed && data.sibling != null && !data.sibling.closed
      modifies `closedCount, `fds, `interest, `owner, closedClients
      modifies {data, data.sibling}`closed, {data, data.sibling}`queueIndex
      ensures Valid() && data.closed && data.sibling.closed
      ensures closedCount == old(closedCount) + 2
      ensures fds == old(fds) - {data.sock, data.sibling.sock}
    {
      CloseConnections(data);
    }

    // ---------- Registrations ----------

    method EpollAdd(c: Client, mask: Mask, ok: bool) returns (r: bool)
      modifies `interest
      ensures r == (ok && c.sock !in old(interest))
      ensures interest == if r then old(interest)[c.sock := Interest(c, mask)] else old(interest)
    {
      r := ok && c.sock !in interest;
      if r {
        interest := interest[c.sock := Interest(c, mask)];
      }
    }

    method EpollMod(c: Client, mask: Mask, ok: bool) returns (r: bool)
      modifies `interest
      ensures r == (ok && c.sock in old(interest))
      ensures interest == if r then old(interest)[c.sock := Interest(c, mask)] else old(interest)
    {
      r := ok && c.sock in interest;
      if r {
        interest := interest[c.sock := Interest(c, mask)];
      }
    }

    /** Changing one client's registration leaves every other pair settled. */
    twostate lemma RegistrationKeepsOthers(data: Client)
      requires old(Descriptors()) && old(AllSound()) && old(SettledBut(data))
      requires data in old(heap) && !old(data.closed)
      requires unchanged(`heap, `owner, `fds) && unchanged(heap)
      requires data.sock in interest ==> interest[data.sock].ptr == data
      requires interest - {data.sock} == old(interest) - {data.sock}
      ensures Descriptors() && SettledBut(data)
    {
      assert old(Sound(data));
      forall f | f in interest && f != data.sock
        ensures f in old(interest) && interest[f] == old(interest)[f]
      {
        assert f in interest - {data.sock};
      }
      forall f | f in old(interest) && f != data.sock ensures f in interest {
        assert f in old(interest) - {data.sock};
      }
      forall c | c in heap && c != data && c != data.sibling ensures Settled(c) {
        assert old(Settled(c)) && old(Sound(c));
      }
    }

    lemma PairSettled(data: Client)
      requires data in heap && data.sibling != null
      requires SettledBut(data) && Settled(data) && Settled(data.sibling)
      ensures SettledBut(null)
    {
    }

    /** Registers both halves of a pair that has just become established, or closes the pair. */
    method StartReceive(data: Client, add0: bool, add1: bool) returns (r: bool)
      requires Core() && SettledBut(data) && closedCount + 2 <= CLOSED_CAPACITY
      requires data in heap && !data.closed && data.sibling != null && !data.sibling.closed
      requires data.connected && data.sibling.connected
      requires data.bufSize == 0 && data.sibling.bufSize == 0
      requires data.sock !in interest && data.sibling.sock !in interest
      modifies `closedCount, `fds, `interest, `owner, closedClients
      modifies {data, data.sibling}`closed, {data, data.sibling}`queueIndex
      ensures Valid()
      ensures r == (add0 && add1) && r == !data.closed
      ensures closedCount == old(closedCount) + if r then 0 else 2
      ensures fds == old(fds) - if r then {} else {data.sock, data.sibling.sock}
    {
      assert Sound(data) && Sound(data.sibling);
      assert OpenCount(data) == OpenCount(data.sibling) == 1;
      r := EpollAdd(data, Mask(true, false), add0);
      if !r {
        ClosePair(data);
        return;
      }
      RegistrationKeepsOthers(data);
      label first:
      r := EpollAdd(data.sibling, Mask(true, false), add1);
      if !r {
        ClosePair(data.sibling);
        return;
      }
      RegistrationKeepsOthers@first(data.sibling);
      PairSettled(data);
    }

    /** Sets the mask `data` needs for the current buffers, or closes the pair. */
    method SwitchMod(data: Client, ok: bool) returns (r: bool)
      requires Core() && SettledBut(data) && closedCount + 2 <= CLOSED_CAPACITY
      requires data in heap && !data.closed && data.sibling != null && !data.sibling.closed
      modifies `closedCount, `fds, `interest, `owner, closedClients
      modifies {data, data.sibling}`closed, {data, data.sibling}`queueIndex
      ensures Core() && SettledBut(data)
      ensures r == (ok && data.sock in old(interest))
      ensures r ==>
        && !data.closed && !data.sibling.closed && closedCount == old(closedCount)
        && interest == old(interest)[data.sock :=
             Interest(data, Mask(data.bufSize == 0, data.sibling.bufSize > 0))]
      ensures !r ==>
        Valid() && data.closed && data.sibling.closed && closedCount == old(closedCount) + 2
    {
      assert Sound(data) && Sound(data.sibling);
      var mask := Mask(data.bufSize == 0, data.sibling.bufSize > 0);
      r := EpollMod(data, mask, ok);
      if r {
        RegistrationKeepsOthers(data);
      } else {
        ClosePair(data);
      }
    }

    /** Brings both halves of a pair up to date with their buffers, or closes the pair. */
    method SwitchPair(data: Client, ok0: bool, ok1: bool) returns (r: bool)
      requires Core() && SettledBut(data) && closedCount + 2 <= CLOSED_CAPACITY
      requires data in heap && !data.closed && data.sibling != null && !data.sibling.closed
      requires data.sock in interest
      requires data.sibling.sock in interest ==> data.connected && data.sibling.connected
      modifies `closedCount, `fds, `interest, `owner, closedClients
      modifies {data, data.sibling}`closed, {data, data.sibling}`queueIndex
      ensures Valid()
      ensures r == (ok0 && ok1 && data.sibling.sock in old(interest)) && r == !data.closed
      ensures r ==> Registered(data)
      ensures closedCount == old(closedCount) + if r then 0 else 2
    {
      assert Sound(data) && Sound(data.sibling);
      r := SwitchMod(data, ok0);
      if r {
        r := SwitchMod(data.sibling, ok1);
        if r {
          PairSettled(data);
        }
      }
    }

    // ---------- Data transfer ----------

    /** Moving bytes through one buffer disturbs nothing outside its pair. */
    twostate lemma TransferKeepsRest(data: Client)
      requires old(Core()) && old(SettledBut(data)) && unchanged(this) && unchanged(closedClients)
      requires data in heap && unchanged(listen)
      requires forall c <- heap ::
        && c.sibling == old(c.sibling) && c.queueIndex == old(c.queueIndex)
        && c.closed == old(c.closed) && c.connected == old(c.connected)
        && (c != data ==> c.bufSize == old(c.bufSize))
        && (c != data && c != data.sibling ==> unchanged(c))
        && (c.buf != data.buf ==> unchanged(c.buf))
      requires data.bufSize <= RECV_BUF_SIZE
      requires Stream(data) && (data.sibling != null ==> Stream(data.sibling))
      ensures Core() && SettledBut(data)
    {
      assert old(Sound(data));
      forall c | c in heap ensures Sound(c) && Stream(c) {
        assert old(Sound(c)) && old(Stream(c));
      }
      forall c | c in heap && c != data && c != data.sibling ensures Settled(c) {
        assert old(Sound(c)) && old(Settled(c));
      }
    }

    /** A successful read into an empty buffer. */
    method Receive(data: Client, got: seq<byte>)
      requires Core() && SettledBut(data) && data in heap
      requires data.bufSize == 0 && |got| <= RECV_BUF_SIZE
      modifies data`bufSize, data`rxBytesTotal, data`received, data.buf
      ensures Core() && SettledBut(data)
      ensures data.received == old(data.received) + got
      ensures data.bufSize == |got| <= data.buf.Length && data.Buffered() == got
    {
      assert Sound(data) && Stream(data);
      assert data.sibling != null ==> Sound(data.sibling) && Stream(data.sibling);
      data.Fill(got);
      TransferKeepsRest(data);
    }

    /** The first `n` bytes of `from`'s buffer go to its sibling's stream. */
    method Shift(from: Client, to: Client, n: nat)
      requires Core() && SettledBut(from) && from in heap && from.sibling == to
      requires n <= from.bufSize <= from.buf.Length
      modifies from`bufSize, from.buf, to`txBytesTotal, to`sent
      ensures Core() && SettledBut(from)
      ensures to.sent == old(to.sent) + old(from.Buffered())[..n]
      ensures from.bufSize == old(from.bufSize) - n
    {
      assert Sound(from) && Stream(from) && Sound(to) && Stream(to);
      SplitAt(to.sent, from.Buffered(), n);
      to.Account(from.buf[..n]);
      from.Drain(n);
      TransferKeepsRest(from);
    }

    /** One send of `from`'s buffer on its sibling's socket, with the buffer compacted after. */
    method Forward(from: Client, to: Client, r: SendResult) returns (n: nat)
      requires Core() && SettledBut(from) && from in heap && from.sibling == to
      requires from.bufSize <= from.buf.Length
      modifies from`bufSize, from.buf, to`txBytesTotal, to`sent
      ensures Core() && SettledBut(from)
      ensures n == Taken(r, old(from.bufSize))
      ensures to.sent == old(to.sent) + old(from.Buffered())[..n]
      ensures from.bufSize == old(from.bufSize) - n
      ensures Sends(r, old(from.Buffered()), old(to.sent), to.sent, from.bufSize)
    {
      n := Taken(r, from.bufSize);
      if n > 0 {
        Shift(from, to, n);
      }
    }

    // ---------- One event ----------

    /** What the EPOLLIN stage reads: nothing while bytes of an earlier read are pending. */
    ghost function ReadIn(data: Client, o: Outcome): seq<byte>
      reads data
    {
      if data.bufSize == 0 then Got(o.read, RECV_BUF_SIZE) else []
    }

    /** The registrations are those `data`'s pair has while `data`'s buffer is empty. */
    ghost predicate ArmedAsEmpty(data: Client)
      requires data.sibling != null
      reads `interest, data, data.sibling
    {
      && Registered(data)
      && if data.connected && data.sibling.connected then
           && interest[data.sock].mask == Mask(true, data.sibling.bufSize > 0)
           && Registered(data.sibling)
           && interest[data.sibling.sock].mask == Mask(data.sibling.bufSize == 0, false)
         else
           && !data.connected && data.sibling.connected && data.sibling.bufSize == 0
           && interest[data.sock].mask == Mask(true, true) && data.sibling.sock !in interest
    }

    /** When passing `got` on tears the pair down: a hard error on send, or bytes left over
        that cannot be armed for in epoll. */
    ghost predicate PassOnCloses(data: Client, o: Outcome, got: seq<byte>)
      requires data.sibling != null
      reads data, `interest
    {
      var n := Taken(o.sendIn, |got|);
      || (n == 0 && !o.sendIn.again)
      || (n < |got| && !(o.modIn0 && o.modIn1 && data.sibling.sock in interest))
    }

    /** When the EPOLLIN stage tears the pair down. */
    ghost predicate InCloses(data: Client, o: Outcome)
      requires data.sibling != null
      reads data, `interest
    {
      data.bufSize == 0 &&
      match o.read
      case ReadError(again) => !again
      case ReadBytes(_) => ReadIn(data, o) == [] || PassOnCloses(data, o, ReadIn(data, o))
    }

    /** When the EPOLLIN stage goes on to the next one. */
    ghost predicate InFallsThrough(data: Client, o: Outcome)
      requires data.sibling != null
      reads data, `interest
    {
      data.bufSize == 0 && o.read.ReadBytes? && !InCloses(data, o)
    }

    /** The front of the bytes just read, as far as the sibling's socket took them. */
    ghost function PassedOn(data: Client, o: Outcome): seq<byte>
      reads data
    {
      ReadIn(data, o)[..Taken(o.sendIn, |ReadIn(data, o)|)]
    }

    /** How many bytes the EPOLLIN stage leaves in the buffer. */
    ghost function LeftIn(data: Client, o: Outcome): nat
      reads data
    {
      if data.bufSize == 0 then |ReadIn(data, o)| - |PassedOn(data, o)| else data.bufSize
    }

    /** Relaying from an empty buffer, by what read() and send() return: the bytes read are
        received, the bytes send() counts are passed on, and the others stay. */
    ghost predicate Relays(o: Outcome, received: seq<byte>, received': seq<byte>,
        passed: seq<byte>, passed': seq<byte>, left: nat)
    {
      match o.read
      case ReadError(_) => received' == received && passed' == passed && left == 0
      case ReadBytes(bytes) =>
        |bytes| <= RECV_BUF_SIZE ==>
          && received' == received + bytes
          && (bytes != [] ==> Sends(o.sendIn, bytes, passed, passed', left))
          && (bytes == [] ==> passed' == passed && left == 0)
    }

    lemma RelaysByCount(o: Outcome, was: nat, received: seq<byte>, received': seq<byte>,
        passed: seq<byte>, passed': seq<byte>, left: nat, asked: bool)
      requires asked && was == 0 ==>
        var got := Got(o.read, RECV_BUF_SIZE);
        var n := Taken(o.sendIn, |got|);
        received' == received + got && passed' == passed + got[..n] && left == |got| - n
      ensures asked && was == 0 ==> Relays(o, received, received', passed, passed', left)
    {
    }

    /** Offers freshly read bytes to the sibling and arms epoll for what it did not take. */
    method PassOn(data: Client, o: Outcome) returns (flow: Flow)
      requires Core() && SettledBut(data) && closedCount + 2 <= CLOSED_CAPACITY
      requires data in heap && !data.closed && data.sibling != null && !data.sibling.closed
      requires 0 < data.bufSize <= data.buf.Length && ArmedAsEmpty(data)
      modifies `closedCount, `fds, `interest, `owner, closedClients, data.buf
      modifies {data, data.sibling}`closed, {data, data.sibling}`queueIndex
      modifies data`bufSize, data.sibling`txBytesTotal, data.sibling`sent
      ensures Valid()
      ensures data.closed == old(PassOnCloses(data, o, data.Buffered()))
      ensures data.sibling.sent == old(data.sibling.sent)
        + old(data.Buffered())[..Taken(o.sendIn, old(data.bufSize))]
      ensures data.bufSize == old(data.bufSize) - Taken(o.sendIn, old(data.bufSize))
      ensures Sends(o.sendIn, old(data.Buffered()), old(data.sibling.sent), data.sibling.sent,
        data.bufSize)
      ensures flow == if data.closed then Break else FallThrough
      ensures flow == FallThrough ==> Registered(data)
      ensures closedCount == old(closedCount) + if data.closed then 2 else 0
    {
      assert Sound(data) && Sound(data.sibling);
      var n := Forward(data, data.sibling, o.sendIn);
      if n == 0 && !o.sendIn.again {
        ClosePair(data);
        return Break;
      }
      if data.bufSize != 0 {
        var r := SwitchPair(data, o.modIn0, o.modIn1);
        return if r then FallThrough else Break;
      }
      PairSettled(data);
      return FallThrough;
    }

    /** An end of file, or a read that fails. */
    method ReadNothing(data: Client, o: Outcome) returns (flow: Flow)
      requires Valid() && closedCount + 2 <= CLOSED_CAPACITY
      requires data in heap && !data.closed && data.sibling != null && !data.sibling.closed
      requires data.bufSize == 0 && ReadIn(data, o) == []
      modifies `closedCount, `fds, `interest, `owner, closedClients
      modifies {data, data.sibling}`closed, {data, data.sibling}`queueIndex
      ensures Valid()
      ensures data.closed == old(InCloses(data, o))
      ensures flow == if o.read.ReadError? then Continue else Break
      ensures closedCount == old(closedCount) + if data.closed then 2 else 0
    {
      if o.read.ReadError? {
        if !o.read.again {
          ClosePair(data);
        }
        return Continue;
      }
      ClosePair(data);
      return Break;
    }

    /** A read of at least one byte, passed on at once. */
    method ReadAndPassOn(data: Client, got: seq<byte>, o: Outcome) returns (flow: Flow)
      requires Valid() && closedCount + 2 <= CLOSED_CAPACITY
      requires data in heap && !data.closed && data.sibling != null && !data.sibling.closed
      requires data.bufSize == 0 && ArmedAsEmpty(data) && 0 < |got| <= RECV_BUF_SIZE
      modifies `closedCount, `fds, `interest, `owner, closedClients, data.buf
      modifies {data, data.sibling}`closed, {data, data.sibling}`queueIndex
      modifies data`bufSize, data`rxBytesTotal, data`received
      modifies data.sibling`txBytesTotal, data.sibling`sent
      ensures Valid()
      ensures data.closed == old(PassOnCloses(data, o, got))
      ensures data.received == old(data.received) + got
      ensures data.sibling.sent == old(data.sibling.sent) + got[..Taken(o.sendIn, |got|)]
      ensures data.bufSize == |got| - Taken(o.sendIn, |got|)
      ensures flow == if data.closed then Break else FallThrough
      ensures flow == FallThrough ==> Registered(data)
      ensures closedCount == old(closedCount) + if data.closed then 2 else 0
    {
      assert Sound(data);
      Receive(data, got);
      flow := PassOn(data, o);
    }

    method HandleIn(data: Client, o: Outcome) returns (flow: Flow)
      requires Valid() && closedCount + 2 <= CLOSED_CAPACITY
      requires data in heap && !data.closed && Registered(data) && data.sibling != null
      modifies `closedCount, `fds, `interest, `owner, closedClients, data.buf
      modifies {data, data.sibling}`closed, {data, data.sibling}`queueIndex
      modifies data`bufSize, data`rxBytesTotal, data`received
      modifies data.sibling`txBytesTotal, data.sibling`sent
      ensures Valid()
      ensures data.closed == old(InCloses(data, o))
      ensures data.received == old(data.received) + old(ReadIn(data, o))
      ensures data.sibling.sent == old(data.sibling.sent) + old(PassedOn(data, o))
      ensures data.bufSize == old(LeftIn(data, o))
      ensures old(data.bufSize) == 0 ==> Relays(o, old(data.received), data.received,
        old(data.sibling.sent), data.sibling.sent, data.bufSize)
      ensures flow == FallThrough ==> Registered(data)
      ensures flow == Continue <==> old(data.bufSize) > 0 || o.read.ReadError?
      ensures flow == FallThrough <==> old(InFallsThrough(data, o))
      ensures closedCount == old(closedCount) + if data.closed then 2 else 0
    {
      assert Sound(data) && Sound(data.sibling) && Settled(data) && Settled(data.sibling);
      if data.bufSize != 0 {
        return Continue;
      }
      var got := Got(o.read, RECV_BUF_SIZE - data.bufSize);
      if |got| == 0 {
        flow := ReadNothing(data, o);
      } else {
        flow := ReadAndPassOn(data, got, o);
      }
    }

    /** When a connect in progress ends in an open pair. */
    ghost predicate Establishes(o: Outcome) {
      o.sockError == NoError && o.del && o.add0 && o.add1
    }

    /** What the EPOLLOUT stage sends: the front of what the sibling has buffered. */
    ghost function SentOut(data: Client, o: Outcome): seq<byte>
      requires data.sibling != null && data.sibling.bufSize <= data.sibling.buf.Length
      reads data, data.sibling, data.sibling.buf
    {
      if data.connected then
        data.sibling.Buffered()[..Taken(o.sendOut, data.sibling.bufSize)]
      else []
    }

    /** Outcome of a connect in progress: the pair starts receiving or is torn down. */
    method Establish(data: Client, o: Outcome) returns (flow: Flow)
      requires Valid() && closedCount + 2 <= CLOSED_CAPACITY
      requires data in heap && !data.closed && Registered(data) && data.sibling != null
      requires !data.connected
      modifies `closedCount, `fds, `interest, `owner, closedClients, data`connected
      modifies {data, data.sibling}`closed, {data, data.sibling}`queueIndex
      ensures Valid()
      ensures !data.closed == Establishes(o)
      ensures flow == if data.closed then Continue else FallThrough
      ensures !data.closed ==> data.connected && data.sibling.connected
      ensures closedCount == old(closedCount) + if data.closed then 2 else 0
    {
      assert Sound(data) && Sound(data.sibling) && Settled(data) && Settled(data.sibling);
      if o.sockError != NoError {
        ClosePair(data);
        return Continue;
      }
      data.connected := true;
      StreamsKept();
      ConnectKeepsOthers(data);
      if !o.del {
        ClosePair(data);
        return Continue;
      }
      label connected:
      interest := interest - {data.sock};
      RegistrationKeepsOthers@connected(data);
      var r := StartReceive(data, o.add0, o.add1);
      return if r then FallThrough else Continue;
    }

    twostate lemma ConnectKeepsOthers(data: Client)
      requires old(Core()) && old(SettledBut(data)) && data in heap
      requires unchanged(this) && unchanged(closedClients) && unchanged(listen)
      requires forall c <- heap ::
        && unchanged(c`closed, c`sibling, c`bufSize, c`queueIndex)
        && (c != data ==> c.connected == old(c.connected))
      ensures Descriptors() && Queue() && AllSound() && SettledBut(data)
    {
      forall c | c in heap ensures Sound(c) {
        assert old(Sound(c));
      }
      forall c | c in heap && c != data && c != data.sibling ensures Settled(c) {
        assert old(Sound(c)) && old(Sound(data)) && old(Settled(c));
      }
    }

    /** When the EPOLLOUT stage of an established half tears the pair down. */
    ghost predicate OutCloses(data: Client, o: Outcome)
      requires data.sibling != null
      reads data, data.sibling
    {
      var n := Taken(o.sendOut, data.sibling.bufSize);
      if data.sibling.bufSize > 0 && n == 0 then !o.sendOut.again
      else n == data.sibling.bufSize && !(o.modOut0 && o.modOut1)
    }

    /** When the socket takes nothing of what is pending. */
    ghost predicate OutStalls(data: Client, o: Outcome)
      requires data.sibling != null
      reads data, data.sibling
    {
      data.connected && data.sibling.bufSize > 0 && Taken(o.sendOut, data.sibling.bufSize) == 0
    }

    /** When the EPOLLOUT stage ends the batch: the pair could not be re-armed. */
    ghost predicate OutBreaks(data: Client, o: Outcome)
      requires data.sibling != null
      reads data, data.sibling
    {
      data.connected && OutCloses(data, o) && !OutStalls(data, o)
    }

    /** Sends what the sibling has buffered; once that buffer is empty, re-arms both halves. */
    method SendPending(data: Client, o: Outcome) returns (flow: Flow)
      requires Valid() && closedCount + 2 <= CLOSED_CAPACITY
      requires data in heap && !data.closed && Registered(data) && data.connected
      requires data.sibling != null && data.sibling.bufSize <= data.sibling.buf.Length
      modifies `closedCount, `fds, `interest, `owner, closedClients, data.sibling.buf
      modifies {data, data.sibling}`closed, {data, data.sibling}`queueIndex
      modifies data.sibling`bufSize, data`txBytesTotal, data`sent
      ensures Valid()
      ensures data.closed == old(OutCloses(data, o))
      ensures data.sent == old(data.sent)
        + old(data.sibling.Buffered())[..Taken(o.sendOut, old(data.sibling.bufSize))]
      ensures data.sibling.bufSize
        == old(data.sibling.bufSize) - Taken(o.sendOut, old(data.sibling.bufSize))
      ensures Sends(o.sendOut, old(data.sibling.Buffered()), old(data.sent), data.sent,
        data.sibling.bufSize)
      ensures flow == FallThrough <==> !data.closed && !old(OutStalls(data, o))
      ensures flow == Break <==> old(OutBreaks(data, o))
      ensures closedCount == old(closedCount) + if data.closed then 2 else 0
    {
      assert Sound(data) && Sound(data.sibling) && Settled(data) && Settled(data.sibling);
      if data.sibling.bufSize > 0 {
        var n := Forward(data.sibling, data, o.sendOut);
        if n == 0 {
          if !o.sendOut.again {
            ClosePair(data);
          } else {
            PairSettled(data);
          }
          return Continue;
        }
      }
      if data.sibling.bufSize == 0 {
        var r := SwitchPair(data, o.modOut0, o.modOut1);
        return if r then FallThrough else Break;
      }
      PairSettled(data);
      return FallThrough;
    }

    method HandleOut(data: Client, o: Outcome) returns (flow: Flow)
      requires Valid() && closedCount + 2 <= CLOSED_CAPACITY
      requires data in heap && !data.closed && Registered(data) && data.sibling != null
      requires data.sibling.bufSize <= data.sibling.buf.Length
      modifies `closedCount, `fds, `interest, `owner, closedClients, data.sibling.buf
      modifies {data, data.sibling}`closed, {data, data.sibling}`queueIndex
      modifies data`connected, data.sibling`bufSize, data`txBytesTotal, data`sent
      ensures Valid()
      ensures closedCount == old(closedCount) + if data.closed then 2 else 0
      ensures old(data.connected) ==> data.connected
      ensures data.closed == old(if data.connected then OutCloses(data, o) else !Establishes(o))
      ensures data.sent == old(data.sent) + old(SentOut(data, o))
      ensures data.sibling.bufSize == old(data.sibling.bufSize - |SentOut(data, o)|)
      ensures !data.closed && data.connected ==> data.sibling.connected
      ensures flow == FallThrough <==> !data.closed && !old(OutStalls(data, o))
      ensures flow == Break <==> old(OutBreaks(data, o))
    {
      assert Sound(data) && Sound(data.sibling) && Settled(data) && Settled(data.sibling);
      assert Stream(data.sibling);
      if !data.connected {
        flow := Establish(data, o);
      } else {
        flow := SendPending(data, o);
      }
    }

    // ---------- New connections ----------

    /** Everything but the descriptor accounting, while `fd` is open and not yet owned. */
    ghost predicate CorePending(fd: int)
      reads this, heap, listen, closedClients, (set c <- heap :: c.sibling), set c <- heap :: c.buf
    {
      && listen !in heap && !listen.closed
      && Owners() && Queue() && AllSound() && AllStreams()
      && fd !in owner && fd != listen.sock && fd != epfd
      && fds == owner.Keys + {listen.sock, epfd, fd}
    }

    /** A fresh client joining the heap leaves the others as they were, except that an existing
        one may have become its sibling. */
    twostate lemma GrowthKeeps(new c: Client)
      requires c !in old(heap) && (c.sibling != null ==> c.sibling in old(heap))
      requires var fd, mate := c.sock, c.sibling; old(CorePending(fd)) && old(SettledBut(mate))
      requires var mate := c.sibling;
        mate != null ==> old(mate.sibling) == null && mate.sibling == c && mate.sent == []
      requires heap == old(heap) + {c}
      requires unchanged(listen) && unchanged(closedClients)
      requires unchanged(`closedCount, `fds, `interest)
      requires owner == old(owner)[c.sock := c] && bufOwner == old(bufOwner)[c.buf := c]
      requires forall d <- old(heap) ::
        && unchanged(d.buf) && (d != c.sibling ==> unchanged(d))
        && d.closed == old(d.closed) && d.queueIndex == old(d.queueIndex)
        && d.bufSize == old(d.bufSize) && d.received == old(d.received) && d.sent == old(d.sent)
        && d.rxBytesTotal == old(d.rxBytesTotal) && d.txBytesTotal == old(d.txBytesTotal)
      requires c.buf !in old(bufOwner) && c.buf.Length == RECV_BUF_SIZE && c.bufSize == 0
      requires !c.closed && c.Counted() && c.received == [] && c.sent == []
      ensures Core() && SettledBut(c)
    {
      forall d | d in heap ensures Sound(d) && Stream(d) {
        if d != c {
          assert old(Sound(d)) && old(Stream(d));
        }
      }
      forall d | d in heap && d != c && d != c.sibling ensures Settled(d) {
        assert old(Sound(d)) && old(Settled(d));
      }
    }

    /** Allocates the client that owns the pending descriptor `fd`, linked to `mate` if any. */
    method Adopt(fd: int, connected: bool, mate: Client?) returns (c: Client)
      requires CorePending(fd) && SettledBut(mate)
      requires mate != null ==> mate in heap && mate.sibling == null && mate.sent == []
      modifies `heap, `owner, `bufOwner, if mate == null then {} else {mate}`sibling
      ensures Core() && SettledBut(c)
      ensures fresh(c) && fresh(c.buf) && c !in old(heap) && heap == old(heap) + {c}
      ensures c.sock == fd && c.connected == connected && !c.closed && c.bufSize == 0
      ensures c.sibling == mate && (mate != null ==> mate.sibling == c)
      ensures c.received == [] && c.sent == []
    {
      c := new Client(fd, connected, RECV_BUF_SIZE, mate);
      if mate != null {
        mate.sibling := c;
      }
      heap := heap + {c};
      owner := owner[fd := c];
      bufOwner := bufOwner[c.buf := c];
      GrowthKeeps(c);
    }

    /** When accepting yields an open pair rather than an error exit. */
    ghost predicate AcceptSucceeds(o: Outcome)
    {
      && o.accept.rxSock.Some? && o.accept.allowed && o.accept.rxNonblock
      && o.accept.txSock.Some? && o.accept.txNonblock
      && match o.accept.connect
         case Connected => o.add0 && o.add1
         case InProgress => o.add0
         case ConnectFailed => false
    }

    /** Registers a connecting half, whose result epoll will report, or closes the pair. */
    method AwaitConnect(tx: Client, ok: bool)
      requires Core() && SettledBut(tx) && closedCount + 2 <= CLOSED_CAPACITY
      requires tx in heap && !tx.closed && tx.sibling != null && !tx.sibling.closed
      requires !tx.connected && tx.sibling.connected && tx.bufSize == 0 && tx.sibling.bufSize == 0
      requires tx.sock !in interest && tx.sibling.sock !in interest
      modifies `closedCount, `fds, `interest, `owner, closedClients
      modifies {tx, tx.sibling}`closed, {tx, tx.sibling}`queueIndex
      ensures Valid()
      ensures ok == !tx.sibling.closed && closedCount == old(closedCount) + if ok then 0 else 2
      ensures fds == old(fds) - if ok then {} else {tx.sock, tx.sibling.sock}
    {
      assert Sound(tx) && Sound(tx.sibling);
      var r := EpollAdd(tx, Mask(true, true), ok);
      if r {
        RegistrationKeepsOthers(tx);
        PairSettled(tx);
      } else {
        ClosePair(tx.sibling);
      }
    }

    /** Creates the uplink half for the accepted half `rx`, now that socket() and connect() have
        been called, and starts the pair according to connect()'s result. */
    method PairUp(rx: Client, txSock: int, o: Outcome)
      requires CorePending(txSock) && SettledBut(rx) && closedCount + 2 <= CLOSED_CAPACITY
      requires rx in heap && !rx.closed && rx.sibling == null && rx.connected
      requires rx.bufSize == 0 && rx.sent == [] && rx.sock !in interest
      requires !o.accept.connect.ConnectFailed?
      modifies this, closedClients, rx`sibling, rx`closed, rx`queueIndex
      ensures Valid()
      ensures rx.sibling != null && rx.sibling.connected == o.accept.connect.Connected?
      ensures heap == old(heap) + {rx.sibling} && fresh(rx.sibling) && fresh(rx.sibling.buf)
      ensures rx.sibling.sock == txSock
      ensures fds == old(fds) - if rx.closed then {rx.sock, txSock} else {}
      ensures !rx.closed == (o.add0 && (o.accept.connect.Connected? ==> o.add1))
      ensures closedCount == old(closedCount) + if rx.closed then 2 else 0
    {
      assert Sound(rx) && txSock !in interest;
      var tx := Adopt(txSock, o.accept.connect.Connected?, rx);
      if o.accept.connect.Connected? {
        var _ := StartReceive(rx, o.add0, o.add1);
      } else {
        AwaitConnect(tx, o.add0);
      }
    }

    /** Connects the accepted half `rx` to the uplink; every error exit closes what it opened. */
    method ConnectUplink(rx: Client, o: Outcome)
      requires Core() && SettledBut(rx) && closedCount + 2 <= CLOSED_CAPACITY
      requires rx in heap && !rx.closed && rx.sibling == null && rx.connected
      requires rx.bufSize == 0 && rx.sent == [] && rx.sock !in interest
      modifies this, closedClients, rx`sibling, rx`closed, rx`queueIndex
      ensures Valid()
      ensures heap == old(heap) + (if rx.sibling == null then {} else {rx.sibling})
      ensures rx.sibling != null ==> fresh(rx.sibling) && fresh(rx.sibling.buf)
      ensures closedCount <= old(closedCount) + 2
      ensures rx.closed ==> fds == old(fds) - {rx.sock}
      ensures !rx.closed ==>
        && rx.sibling != null && rx.sibling.sock !in old(fds)
        && fds == old(fds) + {rx.sibling.sock}
      ensures o.accept.rxSock.Some? && o.accept.allowed && o.accept.rxNonblock ==>
        !rx.closed == AcceptSucceeds(o)
      ensures !rx.closed ==> rx.sibling != null && rx.sibling.connected == o.accept.connect.Connected?
    {
      if o.accept.txSock.None? {
        CloseConnections(rx);
        return;
      }
      var txSock := Unused(fds, o.accept.txSock.value);
      fds := fds + {txSock};
      if !o.accept.txNonblock || o.accept.connect.ConnectFailed? {
        fds := fds - {txSock};
        CloseConnections(rx);
        return;
      }
      PairUp(rx, txSock, o);
    }

    /** Takes ownership of the accepted descriptor `rxSock` and connects it to the uplink. */
    method Welcome(rxSock: int, o: Outcome) returns (rx: Client)
      requires CorePending(rxSock) && SettledBut(null) && closedCount + 2 <= CLOSED_CAPACITY
      requires o.accept.rxSock.Some? && o.accept.allowed && o.accept.rxNonblock
      modifies this, closedClients
      ensures Valid()
      ensures heap == old(heap) + {rx} + (if rx.sibling == null then {} else {rx.sibling})
      ensures fresh(rx.buf) && (rx.sibling != null ==> fresh(rx.sibling) && fresh(rx.sibling.buf))
      ensures closedCount <= old(closedCount) + 2
      ensures rx.closed ==> fds == old(fds) - {rxSock}
      ensures !rx.closed ==>
        && rx.sibling != null && rx.sibling.sock !in old(fds)
        && fds == old(fds) + {rx.sibling.sock}
      ensures AcceptSucceeds(o) == !rx.closed && rx in heap && fresh(rx) && rx.sock == rxSock
    {
      assert rxSock !in interest;
      rx := Adopt(rxSock, true, null);
      label adopted:
      ConnectUplink(rx, o);
      assert heap - old(heap) == (heap - old@adopted(heap)) + {rx};
    }

    /** When a wakeup of the listening socket ends the batch. */
    ghost predicate AcceptBreaks(o: Outcome) {
      o.accept.rxSock.None? || (o.accept.allowed && !o.accept.rxNonblock)
    }

    /** A wakeup of the listening socket. */
    method HandleAccept(o: Outcome) returns (flow: Flow, rx: Client?)
      requires Valid() && closedCount + 2 <= CLOSED_CAPACITY
      modifies this, closedClients
      ensures Valid()
      ensures old(heap) <= heap && forall c <- heap - old(heap) :: fresh(c) && fresh(c.buf)
      ensures closedCount <= old(closedCount) + 2
      ensures flow == Break <==> AcceptBreaks(o)
      ensures rx == null ==> heap == old(heap)
      ensures rx != null ==>
        heap == old(heap) + {rx} + (if rx.sibling == null then {} else {rx.sibling})
      ensures !AcceptSucceeds(o) ==> fds == old(fds)
      ensures AcceptSucceeds(o) ==>
        && rx != null && rx.sibling != null
        && rx.sibling.sock !in old(fds) && rx.sibling.sock != rx.sock
        && fds == old(fds) + {rx.sock, rx.sibling.sock}
      ensures AcceptSucceeds(o) <==> rx != null && !rx.closed
      ensures rx != null ==> rx in heap && fresh(rx) && rx.sock !in old(fds)
    {
      if o.accept.rxSock.None? {
        return Break, null;
      }
      var rxSock := Unused(fds, o.accept.rxSock.value);
      fds := fds + {rxSock};
      if !o.accept.allowed || !o.accept.rxNonblock {
        fds := fds - {rxSock};
        assert fds == old(fds);
        return if o.accept.allowed then Break else Continue, null;
      }
      rx := Welcome(rxSock, o);
      return Continue, rx;
    }

    /** When a wakeup gets as far as its EPOLLOUT stage. */
    ghost predicate ReachesOut(data: Client, ready: Ready, o: Outcome)
      requires data.sibling != null
      reads data, `interest
    {
      ready.epollin ==> InFallsThrough(data, o)
    }

    /** When the EPOLLOUT stage, if asked for, tears the pair down. */
    ghost predicate OutStageCloses(data: Client, ready: Ready, o: Outcome)
      requires data.sibling != null
      reads data, data.sibling
    {
      ready.epollout && if data.connected then OutCloses(data, o) else !Establishes(o)
    }

    ghost function OutStageSends(data: Client, ready: Ready, o: Outcome): seq<byte>
      requires data.sibling != null && data.sibling.bufSize <= data.sibling.buf.Length
      reads data, data.sibling, data.sibling.buf
    {
      if ready.epollout then SentOut(data, o) else []
    }

    /** When a wakeup ends the batch: after its input or its output stage tore the pair down,
        but for a failed read, a failed connect and a failed send of pending bytes. */
    ghost predicate WakeupBreaks(data: Client, ready: Ready, o: Outcome)
      reads data, data.sibling, `interest
    {
      data.sibling != null &&
      if !ReachesOut(data, ready, o) then data.bufSize == 0 && o.read.ReadBytes?
      else ready.epollout && OutBreaks(data, o)
    }

    /** When the input and output stages of a wakeup tear the pair down. */
    ghost predicate StagesClose(data: Client, ready: Ready, o: Outcome)
      requires data.sibling != null
      reads data, data.sibling, `interest
    {
      if !ReachesOut(data, ready, o) then InCloses(data, o) else OutStageCloses(data, ready, o)
    }

    /** When a wakeup gets as far as its hang-up stage. */
    ghost predicate ReachesEnd(data: Client, ready: Ready, o: Outcome)
      requires data.sibling != null
      reads data, data.sibling, `interest
    {
      && ReachesOut(data, ready, o) && !OutStageCloses(data, ready, o)
      && !(ready.epollout && OutStalls(data, o))
    }

    /** When a wakeup tears the pair down. */
    ghost predicate WakeupCloses(data: Client, ready: Ready, o: Outcome)
      reads data, data.sibling, `interest
    {
      data.sibling != null &&
      (StagesClose(data, ready, o) || (ReachesEnd(data, ready, o) && ready.hangup))
    }

    /** The output stage of a wakeup, if it is asked for. */
    method OutStage(data: Client, ready: Ready, o: Outcome) returns (flow: Flow)
      requires Valid() && closedCount + 2 <= CLOSED_CAPACITY
      requires data in heap && !data.closed && Registered(data) && data.sibling != null
      requires data.sibling.bufSize <= data.sibling.buf.Length
      modifies `closedCount, `fds, `interest, `owner, closedClients, data.sibling.buf
      modifies {data, data.sibling}`closed, {data, data.sibling}`queueIndex
      modifies data`connected, data.sibling`bufSize, data`txBytesTotal, data`sent
      ensures Valid()
      ensures closedCount == old(closedCount) + if data.closed then 2 else 0
      ensures old(data.connected) ==> data.connected
      ensures data.closed == old(OutStageCloses(data, ready, o))
      ensures data.sent == old(data.sent) + old(OutStageSends(data, ready, o))
      ensures data.sibling.bufSize == old(data.sibling.bufSize - |OutStageSends(data, ready, o)|)
      ensures flow == FallThrough <==> !data.closed && !(ready.epollout && old(OutStalls(data, o)))
      ensures flow == Break <==> ready.epollout && old(OutBreaks(data, o))
    {
      if ready.epollout {
        flow := HandleOut(data, o);
      } else {
        flow := FallThrough;
      }
    }

    /** The input stage, then, if it gets that far, the output stage. */
    method InThenOut(data: Client, ready: Ready, o: Outcome) returns (flow: Flow)
      requires Valid() && closedCount + 2 <= CLOSED_CAPACITY
      requires data in heap && !data.closed && Registered(data) && data.sibling != null
      requires data.sibling.bufSize <= data.sibling.buf.Length
      modifies `closedCount, `fds, `interest, `owner, closedClients
      modifies {data, data.sibling}`closed, {data, data.sibling}`queueIndex
      modifies {data, data.sibling}`bufSize, data.buf, data.sibling.buf
      modifies {data, data.sibling}`txBytesTotal, {data, data.sibling}`sent
      modifies data`rxBytesTotal, data`received, data`connected
      ensures Valid()
      ensures closedCount == old(closedCount) + if data.closed then 2 else 0
      ensures old(data.connected) ==> data.connected
      ensures data.received == old(data.received) + old(ReadIn(data, o))
      ensures data.sibling.sent == old(data.sibling.sent) + old(PassedOn(data, o))
      ensures data.sent == old(data.sent)
        + if old(InFallsThrough(data, o)) then old(OutStageSends(data, ready, o)) else []
      ensures data.bufSize == old(LeftIn(data, o))
      ensures data.sibling.bufSize == old(data.sibling.bufSize)
        - if old(InFallsThrough(data, o)) then old(|OutStageSends(data, ready, o)|) else 0
      ensures data.closed == old(
        if InFallsThrough(data, o) then OutStageCloses(data, ready, o) else InCloses(data, o))
      ensures flow == FallThrough <==> old(InFallsThrough(data, o)
        && !OutStageCloses(data, ready, o) && !(ready.epollout && OutStalls(data, o)))
      ensures flow == Break <==> old(if InFallsThrough(data, o) then
        ready.epollout && OutBreaks(data, o) else data.bufSize == 0 && o.read.ReadBytes?)
    {
      assert Sound(data) && Sound(data.sibling);
      flow := HandleIn(data, o);
      if flow == FallThrough {
        assert OutStageSends(data, ready, o) == old(OutStageSends(data, ready, o));
        flow := OutStage(data, ready, o);
      }
    }

    method HandleInOut(data: Client, ready: Ready, o: Outcome) returns (flow: Flow)
      requires Valid() && closedCount + 2 <= CLOSED_CAPACITY
      requires data in heap && !data.closed && Registered(data) && data.sibling != null
      requires data.sibling.bufSize <= data.sibling.buf.Length
      modifies `closedCount, `fds, `interest, `owner, closedClients
      modifies {data, data.sibling}`closed, {data, data.sibling}`queueIndex
      modifies {data, data.sibling}`bufSize, data.buf, data.sibling.buf
      modifies {data, data.sibling}`txBytesTotal, {data, data.sibling}`sent
      modifies data`rxBytesTotal, data`received, data`connected
      ensures Valid()
      ensures closedCount == old(closedCount) + if data.closed then 2 else 0
      ensures old(data.connected) ==> data.connected
      ensures !data.closed && data.connected ==> data.sibling.connected
      ensures data.received == old(data.received) + if ready.epollin then old(ReadIn(data, o)) else []
      ensures data.sibling.sent == old(data.sibling.sent)
        + if ready.epollin then old(PassedOn(data, o)) else []
      ensures data.sent == old(data.sent)
        + if old(ReachesOut(data, ready, o)) then old(OutStageSends(data, ready, o)) else []
      ensures data.bufSize == if ready.epollin then old(LeftIn(data, o)) else old(data.bufSize)
      ensures data.sibling.bufSize == old(data.sibling.bufSize)
        - if old(ReachesOut(data, ready, o)) then old(|OutStageSends(data, ready, o)|) else 0
      ensures data.closed == old(StagesClose(data, ready, o))
      ensures flow == FallThrough <==> old(ReachesEnd(data, ready, o))
      ensures flow == Break <==> old(WakeupBreaks(data, ready, o))
    {
      assert Sound(data) && Settled(data) && data.sibling.connected;
      if ready.epollin {
        flow := InThenOut(data, ready, o);
      } else {
        flow := OutStage(data, ready, o);
      }
    }

    /** A wakeup of an open, registered half: input, then output, then hang-up, where an earlier
        stage may end the event or the batch. */
    method HandleData(data: Client, ready: Ready, o: Outcome) returns (flow: Flow)
      requires Valid() && closedCount + 2 <= CLOSED_CAPACITY
      requires data in heap && !data.closed && Registered(data) && data.sibling != null
      requires data.sibling.bufSize <= data.sibling.buf.Length
      modifies `closedCount, `fds, `interest, `owner, closedClients
      modifies {data, data.sibling}`closed, {data, data.sibling}`queueIndex
      modifies {data, data.sibling}`bufSize, data.buf, data.sibling.buf
      modifies {data, data.sibling}`txBytesTotal, {data, data.sibling}`sent
      modifies data`rxBytesTotal, data`received, data`connected
      ensures Valid()
      ensures closedCount == old(closedCount) + if data.closed then 2 else 0
      ensures old(data.connected) ==> data.connected
      ensures !data.closed && data.connected ==> data.sibling.connected
      ensures data.received == old(data.received) + if ready.epollin then old(ReadIn(data, o)) else []
      ensures data.sibling.sent == old(data.sibling.sent)
        + if ready.epollin then old(PassedOn(data, o)) else []
      ensures data.sent == old(data.sent)
        + if old(ReachesOut(data, ready, o)) then old(OutStageSends(data, ready, o)) else []
      ensures data.bufSize == if ready.epollin then old(LeftIn(data, o)) else old(data.bufSize)
      ensures data.sibling.bufSize == old(data.sibling.bufSize)
        - if old(ReachesOut(data, ready, o)) then old(|OutStageSends(data, ready, o)|) else 0
      ensures ready.epollin && old(data.bufSize) == 0 ==> Relays(o, old(data.received),
        data.received, old(data.sibling.sent), data.sibling.sent, data.bufSize)
      ensures ready.epollout && old(data.connected && ReachesOut(data, ready, o)) ==>
        Sends(o.sendOut, old(data.sibling.Buffered()), old(data.sent), data.sent,
          data.sibling.bufSize)
      ensures data.closed == old(WakeupCloses(data, ready, o))
      ensures flow == Break <==> old(WakeupBreaks(data, ready, o))
    {
      flow := HandleInOut(data, ready, o);
      RelaysByCount(o, old(data.bufSize), old(data.received), data.received,
        old(data.sibling.sent), data.sibling.sent, data.bufSize, ready.epollin);
      if flow == FallThrough && ready.hangup {
        assert Settled(data);
        ClosePair(data);
      }
    }

    // ---------- Batches and runs ----------

    /** What every pointer in the unprocessed rest of a batch satisfies, however stale: it points
        to allocated memory, and if still open its pair is past, or itself is in, connecting. */
    ghost predicate Pending(p: Client)
      reads this, p, p.sibling
    {
      || p == listen
      || (p in heap && (p.closed || !p.connected || (p.sibling != null && p.sibling.connected)))
    }

    /** How handling events may change the clients that were already there. */
    twostate predicate Steady()
      reads this, heap
    {
      && old(heap) <= heap
      && forall c <- old(heap) ::
           && c.sibling == old(c.sibling)
           && (old(c.closed) ==> c.closed) && (old(c.connected) ==> c.connected)
           && old(c.received) <= c.received && old(c.sent) <= c.sent
    }

    /** What an event for `p` may write besides the process and kernel state. */
    ghost function Touched(p: Client): set<object>
      reads p
    {
      if p == listen then {}
      else if p.sibling == null then {p, p.buf}
      else {p, p.buf, p.sibling, p.sibling.buf}
    }

    /** A step that changes at most one pair, which only grows its streams and may be closed or
        become connected, changes nothing that matters to other pending entries. */
    twostate lemma PairStepIsSteady(data: Client)
      requires heap == old(heap) && old(AllSound())
      requires data in heap && data.sibling == old(data.sibling) && data.sibling != null
      requires data.sibling.sibling == data && data.sibling in heap
      requires forall c <- heap :: c != data && c != data.sibling ==> unchanged(c)
      requires old(data.closed) ==> data.closed
      requires old(data.sibling.closed) ==> data.sibling.closed
      requires old(data.connected) ==> data.connected
      requires unchanged(data.sibling`connected)
      requires !data.closed && data.connected ==> data.sibling.connected
      requires old(data.received) <= data.received && old(data.sent) <= data.sent
      requires unchanged(data.sibling`received) && old(data.sibling.sent) <= data.sibling.sent
      ensures Steady()
      ensures forall c {:trigger Pending(c)} | c in old(heap) && old(Pending(c)) :: Pending(c)
    {
      assert old(Sound(data));
      forall c | c in heap
        ensures c.sibling == old(c.sibling) && (old(Pending(c)) ==> Pending(c))
      {
        assert old(Sound(c));
      }
    }

    /** An entry of the listening socket: the clients that were there do not change. */
    method HandleListener(o: Outcome) returns (flow: Flow)
      requires Valid() && closedCount + 2 <= CLOSED_CAPACITY
      modifies this, closedClients
      ensures Valid() && Steady()
      ensures old(heap) <= heap && forall c <- heap - old(heap) :: fresh(c) && fresh(c.buf)
      ensures closedCount <= old(closedCount) + 2
      ensures AcceptSucceeds(o) ==> exists c :: c in heap - old(heap) && !c.closed
      ensures flow == Break <==> AcceptBreaks(o)
      ensures forall c {:trigger Pending(c)} | c in old(heap) && old(Pending(c)) :: Pending(c)
    {
      var rx;
      flow, rx := HandleAccept(o);
      forall c | c in old(heap) && old(Pending(c)) ensures Pending(c) {
        assert old(Sound(c));
      }
    }

    /** An entry of an open half of a pair. */
    method HandleOpen(data: Client, ready: Ready, o: Outcome) returns (flow: Flow)
      requires Valid() && closedCount + 2 <= CLOSED_CAPACITY
      requires data in heap && !data.closed && Pending(data) && data.sibling != null
      modifies this`closedCount, this`fds, this`interest, this`owner, closedClients
      modifies data, data.sibling, data.buf, data.sibling.buf
      ensures Valid() && Steady()
      ensures closedCount <= old(closedCount) + 2
      ensures data.closed == old(WakeupCloses(data, ready, o))
      ensures flow == Break <==> old(WakeupBreaks(data, ready, o))
      ensures data.received == old(data.received) + if ready.epollin then old(ReadIn(data, o)) else []
      ensures forall c {:trigger Pending(c)} | c in old(heap) && old(Pending(c)) :: Pending(c)
    {
      assert Sound(data) && Settled(data) && data.sibling.connected;
      assert Sound(data.sibling);
      flow := HandleData(data, ready, o);
      PairStepIsSteady(data);
    }

    /** When an entry ends its batch. */
    ghost predicate EventBreaks(e: Event)
      reads e.ptr, e.ptr.sibling, `interest
    {
      && !e.ptr.closed
      && if e.ptr == listen then AcceptBreaks(e.outcome)
         else WakeupBreaks(e.ptr, e.ready, e.outcome)
    }

    /** One entry of a batch. An entry whose client was closed earlier in the batch does nothing,
        even if its descriptor number has been reused since. */
    method HandleEvent(e: Event) returns (flow: Flow)
      requires Valid() && Pending(e.ptr) && closedCount + 2 <= CLOSED_CAPACITY
      modifies this, closedClients, Touched(e.ptr)
      ensures Valid()
      ensures old(heap) <= heap && forall c <- heap - old(heap) :: fresh(c) && fresh(c.buf)
      ensures closedCount <= old(closedCount) + 2
      ensures old(e.ptr.closed) ==>
        && unchanged(this) && unchanged(closedClients) && unchanged(heap)
        && forall c <- heap :: unchanged(c.buf)
      ensures e.ptr != listen ==> heap == old(heap)
      ensures e.ptr != listen && !old(e.ptr.closed) ==>
        && e.ptr.closed == old(WakeupCloses(e.ptr, e.ready, e.outcome))
        && e.ptr.received == old(e.ptr.received)
             + if e.ready.epollin then old(ReadIn(e.ptr, e.outcome)) else []
      ensures e.ptr == listen ==>
        (AcceptSucceeds(e.outcome) ==> exists c :: c in heap - old(heap) && !c.closed)
      ensures flow == Break <==> old(EventBreaks(e))
      ensures HangUpDone(e) && Steady() && (flow == Break ==> CutsBatch(e))
      ensures forall c {:trigger Pending(c)} | c in old(heap) && old(Pending(c)) :: Pending(c)
    {
      if e.ptr.closed {
        return Continue;
      }
      assert e.ptr != listen ==> Sound(e.ptr) && Settled(e.ptr);
      if e.ptr.sock == listen.sock {
        flow := HandleListener(e.outcome);
      } else {
        flow := HandleOpen(e.ptr, e.ready, e.outcome);
      }
    }

    /** The proposed wakeups of registered descriptors, in order, up to the size of a batch. */
    ghost function Reported(script: seq<Wakeup>): (events: seq<Event>)
      reads `interest
      ensures |events| <= MAX_EVENTS
    {
      if script == [] then []
      else
        var earlier, w := Reported(script[..|script| - 1]), script[|script| - 1];
        if w.fd in interest && |earlier| < MAX_EVENTS
        then earlier + [Event(interest[w.fd].ptr, w.ready, w.outcome)]
        else earlier
    }

    /** epoll_pwait: at most MAX_EVENTS events, each carrying a registered pointer. */
    method Wait(script: seq<Wakeup>) returns (events: seq<Event>)
      requires Valid()
      ensures |events| <= MAX_EVENTS && events == Reported(script)
      ensures forall i | 0 <= i < |events| :: Pending(events[i].ptr)
    {
      events := [];
      for i := 0 to |script|
        invariant |events| <= MAX_EVENTS && events == Reported(script[..i])
        invariant forall j | 0 <= j < |events| :: Pending(events[j].ptr)
      {
        var w := script[i];
        if w.fd in interest && |events| < MAX_EVENTS {
          var p := interest[w.fd].ptr;
          assert p != listen ==> Sound(p) && Settled(p);
          events := events + [Event(p, w.ready, w.outcome)];
        }
        assert script[..i + 1][..i] == script[..i];
      }
      assert script[..|script|] == script;
    }

    /** An event that reports only a hang-up of one half leaves that half closed. */
    ghost predicate HangUpDone(e: Event)
      reads e.ptr
    {
      e.ptr != listen && e.ready == Ready(false, false, true) ==> e.ptr.closed
    }

    /** An event that ended its batch: an accept that failed, or data that tore its pair down. */
    ghost predicate CutsBatch(e: Event)
      reads e.ptr
    {
      if e.ptr == listen then AcceptBreaks(e.outcome)
      else e.ptr.closed && (e.ready.epollin || e.ready.epollout)
    }

    ghost predicate Settles(e: Event)
      reads `heap, e.ptr
    {
      (e.ptr == listen || e.ptr in heap) && HangUpDone(e)
    }

    /** The first `n` events of a batch have been handled, and the rest can be. */
    ghost predicate Progress(events: seq<Event>, n: nat)
      reads this, set e <- events :: e.ptr, set e <- events :: e.ptr.sibling
    {
      && (forall j | n <= j < |events| :: Pending(events[j].ptr))
      && (forall j | 0 <= j < n && j < |events| :: Settles(events[j]))
    }

    method HandleNext(events: seq<Event>, n: nat) returns (flow: Flow)
      requires Valid() && n < |events| && Progress(events, n)
      requires closedCount + 2 <= CLOSED_CAPACITY
      modifies this, closedClients, Touched(events[n].ptr)
      ensures Valid() && Steady() && Progress(events, n + 1)
      ensures old(heap) <= heap && forall c <- heap - old(heap) :: fresh(c) && fresh(c.buf)
      ensures closedCount <= old(closedCount) + 2
      ensures flow == Break ==> CutsBatch(events[n])
    {
      flow := HandleEvent(events[n]);
      forall j | 0 <= j < n ensures Settles(events[j]) {
        assert old(Settles(events[j]));
      }
    }

    /** One pass over a batch. Every event is handled unless one cuts it short. Nothing is freed
        during it, so no entry can dangle, and two queue slots per entry are always enough. */
    method ProcessBatch(events: seq<Event>) returns (handled: nat, cut: bool)
      requires Valid() && closedCount == 0 && |events| <= MAX_EVENTS
      requires forall i | 0 <= i < |events| :: Pending(events[i].ptr)
      modifies this, closedClients, heap, set c <- heap :: c.buf
      ensures Valid() && Steady()
      ensures forall c <- heap :: c in old(heap) || (fresh(c) && fresh(c.buf))
      ensures handled <= |events| && (handled < |events| ==> cut)
      ensures cut ==> handled > 0 && CutsBatch(events[handled - 1])
      ensures forall i | 0 <= i < handled :: Settles(events[i])
    {
      handled, cut := 0, false;
      while handled < |events| && !cut
        invariant 0 <= handled <= |events| && closedCount <= 2 * handled
        invariant Valid() && Steady()
        invariant forall c <- heap :: c in old(heap) || (fresh(c) && fresh(c.buf))
        invariant Progress(events, handled)
        invariant cut ==> handled > 0 && CutsBatch(events[handled - 1])
      {
        label before:
        var p := events[handled].ptr;
        assert p != listen ==> Sound(p);
        assert p != listen && p.sibling != null ==> Sound(p.sibling);
        var flow := HandleNext(events, handled);
        forall c | c in heap && c !in old(heap) ensures fresh(c) && fresh(c.buf) {
          assert c !in old@before(heap) ==> c in heap - old@before(heap);
        }
        handled := handled + 1;
        cut := flow == Break;
      }
    }

    /** Freeing the closed clients leaves no pointer to them: every client that stays is open,
        so its sibling stays too. */
    twostate lemma FreeingKeeps()
      requires old(Valid())
      requires heap == set c | c in old(heap) && !old(c.closed)
      requires closedCount == 0 && unchanged(`owner, `bufOwner, `fds, `interest)
      requires unchanged(old(heap)) && unchanged(listen) && unchanged(closedClients)
      requires forall c <- old(heap) :: unchanged(c.buf)
      ensures Valid()
    {
      forall c | c in heap ensures Sound(c) && Stream(c) && Settled(c) {
        assert old(Sound(c)) && old(Stream(c)) && old(Settled(c));
      }
    }

    /** Frees every queued client, each exactly once: a client must be allocated to be freed. */
    method FlushClosedConnections()
      requires Valid()
      modifies `heap, `closedCount
      ensures Valid() && closedCount == 0
      ensures heap == set c | c in old(heap) && !c.closed
    {
      for i := 0 to closedCount
        invariant closedCount == old(closedCount)
        invariant heap == old(heap) - set j | 0 <= j < i :: closedClients[j]
      {
        ghost var c := closedClients[i];
        assert c in heap;
        heap := heap - {c};
      }
      closedCount := 0;
      forall c | c in old(heap) ensures c in heap <==> !c.closed {
        assert old(Sound(c));
      }
      FreeingKeeps();
    }

    /** One iteration of the main loop. `freed` are the clients it freed: siblings go together,
        and each delivered a prefix of what it had read. Whoever hung up is among them, unless
        the batch was cut short. */
    method Cycle(script: seq<Wakeup>)
      returns (ghost freed: set<Client>, handled: nat, cut: bool)
      requires Valid() && closedCount == 0
      modifies this, closedClients, heap, set c <- heap :: c.buf
      ensures Valid() && closedCount == 0
      ensures heap !! freed && old(heap) <= heap + freed
      ensures forall c <- freed :: c.closed
      ensures handled <= |old(Reported(script))| && (handled < |old(Reported(script))| ==> cut)
      ensures cut ==> handled > 0 && CutsBatch(old(Reported(script))[handled - 1])
      ensures forall i | 0 <= i < handled ::
        var e := old(Reported(script))[i];
        e.ptr != listen && e.ready == Ready(false, false, true) ==> e.ptr in freed
      ensures forall c <- heap + freed :: c in old(heap) || (fresh(c) && fresh(c.buf))
      ensures forall c <- freed :: c.sibling != null ==>
        c.sibling in freed && c.sibling.sent <= c.received
    {
      var events := Wait(script);
      handled, cut := ProcessBatch(events);
      assert forall i | 0 <= i < handled :: Settles(events[i]);
      freed := set c | c in heap && c.closed;
      forall c | c in freed && c.sibling != null
        ensures c.sibling in freed && c.sibling.sent <= c.received
      {
        assert Sound(c) && Sound(c.sibling) && Stream(c) && Settled(c.sibling);
      }
      FlushClosedConnections();
    }

    /** The main loop over any number of batches. `gone` collects every client ever freed: what
        it delivered to its sibling's peer is a prefix of what it had read. */
    method Run(script: seq<seq<Wakeup>>) returns (ghost gone: set<Client>)
      requires Valid() && closedCount == 0
      modifies this, closedClients, heap, set c <- heap :: c.buf
      ensures Valid() && closedCount == 0
      ensures heap !! gone && old(heap) <= heap + gone
      ensures forall c <- gone :: c.sibling != null ==> c.sibling.sent <= c.received
    {
      gone := {};
      for k := 0 to |script|
        invariant Valid() && closedCount == 0
        invariant heap !! gone && old(heap) <= heap + gone
        invariant forall c <- heap + gone :: c in old(heap) || (fresh(c) && fresh(c.buf))
        invariant forall c <- gone :: c.sibling != null ==>
          c.sibling in gone && c.sibling.sent <= c.received
      {
        ghost var freed;
        var handled, cut;
        freed, handled, cut := Cycle(script[k]);
        gone := gone + freed;
      }
    }

    // ---------- What the invariant means ----------

    /** No buffered byte waits without a wakeup: its destination is armed for output, and its
        source is not read again until it has gone. */
    lemma BufferedBytesHaveWakeup(c: Client)
      requires Valid() && c in heap && !c.closed && c.bufSize > 0
      ensures c.sibling != null && !c.sibling.closed
      ensures Registered(c) && !interest[c.sock].mask.epollin
      ensures Registered(c.sibling) && interest[c.sibling.sock].mask.epollout
    {
      assert Sound(c) && Settled(c) && Settled(c.sibling);
    }

    /** Delivery is in order, without loss or duplication, and the counters account for it. */
    lemma DeliveryIsPrefix(c: Client)
      requires Valid() && c in heap && c.sibling != null
      ensures c.sibling.sent <= c.received
      ensures |c.received| == |c.sibling.sent| + c.bufSize
      ensures c.rxBytesTotal == (c.sibling.txBytesTotal + c.bufSize) % U64_MODULUS
    {
      assert Sound(c) && Stream(c) && Stream(c.sibling);
    }

    /** Epoll never hands out a pointer to a freed or closed client. */
    lemma InterestNeverDangles(f: int)
      requires Valid() && f in interest
      ensures interest[f].ptr == listen || (interest[f].ptr in heap && !interest[f].ptr.closed)
      ensures interest[f].ptr.sock == f
    {
    }

    /** An open descriptor is the listener, the epoll instance or belongs to one open client. */
    lemma DescriptorsAreOwned(c: Client, d: Client)
      requires Valid() && c in heap && d in heap && !c.closed && !d.closed
      ensures c.sock in fds && (c.sock == d.sock ==> c == d)
      ensures fds == {listen.sock, epfd} + set e <- heap | !e.closed :: e.sock
    {
      assert Sound(c) && Sound(d);
      forall f | f in fds && f != listen.sock && f != epfd
        ensures exists e :: e in heap && !e.closed && e.sock == f
      {
        assert owner[f] in heap;
      }
      forall e | e in heap && !e.closed ensures e.sock in fds {
        assert Sound(e);
      }
    }
  }

  lemma SplitAt(a: seq<byte>, b: seq<byte>, n: nat)
    requires n <= |b|
    ensures a + b == (a + b[..n]) + b[n..]
  {
    assert b == b[..n] + b[n..];
  }
}
