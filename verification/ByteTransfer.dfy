/**
 Reading and sending: the Unix branch of TcpSocket::read, the loop around it in
 TinyWebServer/src/abstract/abstractsocket.cpp, and the Linux branch of TcpSocket::sendFile.
 The kernel delivers data in any chunks, may interrupt a call any number of times, and comes
 to an end that it reports from then on.
 */
module ByteTransfer {
  import opened Url

  const SOCKET_BUF_SIZE: nat := 4096

  datatype End = WouldBlock | EndOfFile | Failure

  datatype Event = Data(bytes: Bytes) | Interrupted

  /** What is going to happen to a descriptor, and whether errno is EINTR. */
  datatype Kernel = Kernel(script: seq<Event>, end: End, interrupted: bool, reported: bool)

  datatype Call = Call(bytes: Bytes, kernel: Kernel)

  predicate GoodKernel(k: Kernel) {
    forall i :: 0 <= i < |k.script| ==> k.script[i].Data? ==> k.script[i].bytes != []
  }

  /** One system call for up to n bytes. No bytes stand for a result that is not positive. At
      the end of the file errno stays what it was. */
  function SysRead(k: Kernel, n: nat): Call {
    if k.script == [] then
      Call([], k.(interrupted := k.end.EndOfFile? && k.interrupted, reported := true))
    else
      match k.script[0]
      case Interrupted => Call([], k.(script := k.script[1..], interrupted := true))
      case Data(bytes) =>
        if |bytes| <= n then Call(bytes, k.(script := k.script[1..]))
        else Call(bytes[..n], k.(script := [Data(bytes[n..])] + k.script[1..]))
  }

  /** All that the kernel has yet to deliver. */
  function Pending(script: seq<Event>): Bytes {
    if script == [] then []
    else (if script[0].Data? then script[0].bytes else []) + Pending(script[1..])
  }

  /** Whether errno is going to be EINTR when the end of the file is reported. */
  predicate Spins(k: Kernel) {
    k.end.EndOfFile? && (k.interrupted || Interrupted in k.script)
  }

  /** For termination: what is left in the script. */
  function Work(script: seq<Event>): nat {
    |Pending(script)| + |script|
  }

  /** A call delivers what comes next, and gets on. */
  lemma CallDelivers(k: Kernel, n: nat)
    requires GoodKernel(k) && n > 0
    ensures var c := SysRead(k, n);
            && |c.bytes| <= n && GoodKernel(c.kernel) && c.kernel.end == k.end
            && Pending(k.script) == c.bytes + Pending(c.kernel.script)
            && (Spins(c.kernel) <==> Spins(k))
            && (k.script != [] ==> Work(c.kernel.script) < Work(k.script))
  {
    if k.script != [] {
      var rest := k.script[1..];
      assert k.script == [k.script[0]] + rest;
      assert forall i :: 0 <= i < |rest| ==> rest[i] == k.script[i + 1];
      if k.script[0].Data? && |k.script[0].bytes| > n {
        var bytes := k.script[0].bytes;
        assert bytes == bytes[..n] + bytes[n..];
        assert ([Data(bytes[n..])] + rest)[1..] == rest;
      }
    }
  }

  /** A string with a stretch of it replaced. */
  function Patched(was: Bytes, start: nat, filled: Bytes): Bytes
    requires start + |filled| <= |was|
  {
    was[..start] + filled + was[start + |filled|..]
  }

  /** A std::string that is resized and written to in place. */
  class Buffer {
    var data: Bytes

    constructor ()
      ensures data == []
    {
      data := [];
    }

    method Resize(size: nat)
      modifies this
      ensures data == if size <= |old(data)| then old(data)[..size]
                      else old(data) + seq(size - |old(data)|, _ => '\0')
    {
      if size <= |data| {
        data := data[..size];
      } else {
        data := data + seq(size - |data|, _ => '\0');
      }
    }

    /** What the kernel writes through a pointer into the string. */
    method Write(at: nat, bytes: Bytes)
      requires at + |bytes| <= |data|
      modifies this
      ensures data == Patched(old(data), at, bytes)
    {
      data := Patched(data, at, bytes);
    }
  }

  function Min(a: nat, b: nat): nat {
    if a < b then a else b
  }

  /** Between two states of the descriptor exactly `filled` has been delivered. */
  predicate Delivered(was: Kernel, now: Kernel, filled: Bytes) {
    && GoodKernel(now) && now.end == was.end && (Spins(now) <==> Spins(was))
    && Pending(was.script) == filled + Pending(now.script)
  }

  class TcpSocket {
    const isListener: bool
    var kernel: Kernel
    var times: nat          // requests so far
    var wire: Bytes         // all that has gone out
    var sends: seq<int>

    constructor (isListener: bool, kernel: Kernel, sends: seq<int>)
      ensures this.isListener == isListener && this.kernel == kernel && this.sends == sends && wire == [] && times == 0
    {
      this.isListener, this.kernel, this.sends, this.wire, this.times := isListener, kernel, sends, [], 0;
    }

    /** The system call, into the buffer. */
    method SystemRead(buffer: Buffer, at: nat, n: nat, ghost from: Kernel, ghost filled: Bytes) returns (bytes: Bytes)
      requires at + n <= |buffer.data| && n > 0 && Delivered(from, kernel, filled)
      modifies this`kernel, buffer
      ensures |bytes| <= n && Delivered(from, kernel, filled + bytes)
      ensures buffer.data == Patched(old(buffer.data), at, bytes)
      ensures old(kernel.script) != [] ==> Work(kernel.script) < Work(old(kernel.script))
      ensures old(kernel.script) == [] ==> bytes == [] && (kernel.interrupted ==> Spins(from))
      ensures bytes == [] && !kernel.interrupted ==> kernel.script == [] && kernel.reported
    {
      var call := SysRead(kernel, n);
      kernel, bytes := call.kernel, call.bytes;
      buffer.Write(at, bytes);
    }

    /** Fills the buffer from `start` on. It returns early only when the kernel has reported
        something other than an interrupt. */
    method Read(buffer: Buffer, start: nat, count: nat) returns (ret: int)
      requires start + count <= |buffer.data| && GoodKernel(kernel)
      requires isListener || count == 0 || !Spins(kernel) || count <= |Pending(kernel.script)|
      modifies this`kernel, buffer
      ensures isListener || count == 0 ==> ret == -1 && kernel == old(kernel) && buffer.data == old(buffer.data)
      ensures !isListener && count > 0 ==>
                && ret == Min(|Pending(old(kernel.script))|, count)
                && buffer.data == Patched(old(buffer.data), start, Pending(old(kernel.script))[..ret])
                && Delivered(old(kernel), kernel, Pending(old(kernel.script))[..ret])
                && (ret < count ==> kernel.script == [] && kernel.reported)
    {
      if isListener || count == 0 {
        return -1;
      }
      var leftSize := count;
      ghost var was, filled: Bytes := buffer.data, [];
      while leftSize > 0
        invariant 0 <= leftSize <= count && |filled| == count - leftSize
        invariant buffer.data == Patched(was, start, filled)
        invariant Delivered(old(kernel), kernel, filled)
        decreases Work(kernel.script)
      {
        var bytes := SystemRead(buffer, start + count - leftSize, leftSize, old(kernel), filled);
        filled := filled + bytes;
        if bytes == [] {
          if kernel.interrupted {
            continue;
          }
          assert Pending(old(kernel.script)) == filled;
          return count - leftSize;
        }
        leftSize := leftSize - |bytes|;
      }
      assert Pending(old(kernel.script))[..count] == filled;
      return count;
    }

    /** The body of the loop below: a block of space behind the buffer is filled and fitted. */
    method ReadBlock(buffer: Buffer) returns (ret: int)
      requires GoodKernel(kernel) && (isListener || !Spins(kernel))
      modifies this`kernel, buffer
      ensures isListener ==> ret == -1 && kernel == old(kernel) && buffer.data == old(buffer.data)
      ensures !isListener ==>
                && ret == Min(|Pending(old(kernel.script))|, SOCKET_BUF_SIZE)
                && buffer.data == old(buffer.data) + Pending(old(kernel.script))[..ret]
                && Delivered(old(kernel), kernel, Pending(old(kernel.script))[..ret])
                && (ret < SOCKET_BUF_SIZE ==> kernel.script == [] && kernel.reported)
    {
      var start := |buffer.data|;
      buffer.Resize(start + SOCKET_BUF_SIZE);
      ret := Read(buffer, start, SOCKET_BUF_SIZE);
      if ret <= 0 {
        buffer.Resize(start);
      } else {
        var newSize := start + ret;
        if newSize != |buffer.data| {
          buffer.Resize(newSize);
        }
      }
    }

    /** AbstractSocket::read: everything that the kernel has, in order and without padding, and
        the end has been reported when it returns. */
    method ReadAll(buffer: Buffer)
      requires GoodKernel(kernel) && (isListener || !Spins(kernel))
      modifies this`kernel, buffer
      ensures isListener ==> kernel == old(kernel) && buffer.data == old(buffer.data)
      ensures !isListener ==>
                && buffer.data == old(buffer.data) + Pending(old(kernel.script))
                && kernel.script == [] && kernel.reported && kernel.end == old(kernel.end)
    {
      var ret := SOCKET_BUF_SIZE;
      ghost var drained: Bytes := [];
      while ret == SOCKET_BUF_SIZE
        invariant isListener ==> kernel == old(kernel) && buffer.data == old(buffer.data)
        invariant !isListener ==> Delivered(old(kernel), kernel, drained) && buffer.data == old(buffer.data) + drained
        invariant isListener || ret == SOCKET_BUF_SIZE || (kernel.script == [] && kernel.reported)
        decreases if isListener then 0 else |Pending(kernel.script)|, if ret == SOCKET_BUF_SIZE then 1 else 0
      {
        ret, drained := ReadNext(buffer, old(kernel), old(buffer.data), drained);
      }
    }

    /** The body of the loop, when so much has been read since the kernel was `from`. */
    method ReadNext(buffer: Buffer, ghost from: Kernel, ghost was: Bytes, ghost drained: Bytes)
      returns (ret: int, ghost more: Bytes)
      requires GoodKernel(kernel) && (isListener || !Spins(kernel))
      requires !isListener ==> Delivered(from, kernel, drained) && buffer.data == was + drained
      modifies this`kernel, buffer
      ensures isListener ==> ret == -1 && kernel == old(kernel) && buffer.data == old(buffer.data)
      ensures !isListener ==> Delivered(from, kernel, more) && buffer.data == was + more
      ensures !isListener && ret == SOCKET_BUF_SIZE ==> |Pending(kernel.script)| < |Pending(old(kernel.script))|
      ensures !isListener && ret != SOCKET_BUF_SIZE ==> kernel.script == [] && kernel.reported
    {
      ghost var before := Pending(kernel.script);
      ret := ReadBlock(buffer);
      more := drained;
      if !isListener {
        more := drained + before[..ret];
        assert before == before[..ret] + Pending(kernel.script);
        assert |before| == ret + |Pending(kernel.script)|;
      }
    }

    /** A write, which is taken to send everything or to fail. */
    method Write(data: Bytes, accepted: bool) returns (ret: int)
      modifies this`wire
      ensures ret == |data| <==> !isListener && data != [] && accepted
      ensures wire == if ret == |data| then old(wire) + data else old(wire)
    {
      if isListener || data == [] || !accepted {
        return -1;
      }
      wire := wire + data;
      return |data|;
    }

    method AddTimes()
      modifies this`times
      ensures times == old(times) + 1
    {
      times := times + 1;
    }

    /** The system call that sends from a file: the kernel takes as much as it likes of what
        there is. Each entry of `sends` is how much it likes to take, or refuses. */
    method SystemSend(file: Bytes, offset: nat, n: nat) returns (ret: int, next: nat)
      modifies this`wire, this`sends
      ensures ret == Taken(n, Available(file, offset), old(sends))
      ensures if ret > 0 then
                && wire == old(wire) + FileSlice(file, offset, ret)
                && sends == old(sends)[1..] && next == offset + ret
              else wire == old(wire) && next == offset
    {
      ret, next := Taken(n, Available(file, offset), sends), offset;
      if sends != [] {
        sends := sends[1..];
      }
      if ret > 0 {
        wire := wire + FileSlice(file, offset, ret);
        next := offset + ret;
      }
    }

    /** TcpSocket::sendFile: however little each call takes, what goes out is the slice from its
        beginning, and as much of it as the file has and the kernel takes. */
    method SendFile(file: Bytes, offset: nat, count: nat) returns (ret: nat)
      modifies this`wire, this`sends
      ensures ret == Reach(count, Available(file, offset), old(sends))
      ensures wire == old(wire) + FileSlice(file, offset, ret)
    {
      var leftSize, at := count, offset;
      ghost var reach := Reach(count, Available(file, offset), sends);
      while true
        invariant 0 <= leftSize <= count && at == offset + (count - leftSize) && at - offset <= Available(file, offset)
        invariant wire == old(wire) + FileSlice(file, offset, at - offset)
        invariant reach == count - leftSize + Reach(leftSize, Available(file, at), sends)
        decreases |sends|
      {
        var sent;
        sent, at := SendMore(file, at, leftSize, offset, old(wire));
        if sent <= 0 {
          return count - leftSize;
        }
        leftSize := leftSize - sent;
        if leftSize == 0 {
          return count;
        }
      }
    }

    /** One call of the loop, behind all that has been sent since `before`. */
    method SendMore(file: Bytes, at: nat, leftSize: nat, ghost offset: nat, ghost before: Bytes)
      returns (sent: int, next: nat)
      requires offset <= at && at - offset <= Available(file, offset)
      requires wire == before + FileSlice(file, offset, at - offset)
      modifies this`wire, this`sends
      ensures sent <= leftSize && next == (if sent > 0 then at + sent else at)
      ensures next - offset <= Available(file, offset) && wire == before + FileSlice(file, offset, next - offset)
      ensures sent > 0 ==> |sends| < |old(sends)|
      ensures Reach(leftSize, Available(file, at), old(sends)) ==
              if sent > 0 then sent + Reach(leftSize - sent, Available(file, next), sends) else 0
    {
      sent, next := SystemSend(file, at, leftSize);
    }
  }

  /** How far sending gets. */
  function Reach(count: nat, available: nat, sends: seq<int>): nat {
    Min(Min(count, available), Capacity(sends))
  }

  /** How much of a file there is from an offset on. */
  function Available(file: Bytes, offset: nat): nat {
    if offset < |file| then |file| - offset else 0
  }

  function FileSlice(file: Bytes, offset: nat, n: nat): (s: Bytes)
    requires n <= Available(file, offset)
    ensures |s| == n
  {
    if n == 0 then [] else file[offset..offset + n]
  }

  /** What one call does. */
  function Taken(n: nat, available: nat, sends: seq<int>): (ret: int)
    ensures ret <= n && ret <= available
  {
    if sends == [] || sends[0] <= 0 then -1 else Min(Min(sends[0], n), available)
  }

  /** How much the kernel takes before it refuses. */
  function Capacity(sends: seq<int>): nat {
    if sends == [] || sends[0] <= 0 then 0 else sends[0] + Capacity(sends[1..])
  }

  function Sum(numbers: seq<int>): int {
    if numbers == [] then 0 else Sum(numbers[..|numbers| - 1]) + numbers[|numbers| - 1]
  }

  /** So many calls in a row take something. */
  predicate Taking(sends: seq<int>, k: nat) {
    k <= |sends| && forall i :: 0 <= i < k ==> sends[i] > 0
  }

  lemma {:induction false} SumFront(numbers: seq<int>)
    requires numbers != []
    ensures Sum(numbers) == numbers[0] + Sum(numbers[1..])
  {
    if |numbers| > 1 {
      SumFront(numbers[..|numbers| - 1]);
      assert numbers[..|numbers| - 1][1..] == numbers[1..][..|numbers| - 2];
    }
  }

  lemma {:induction false} CapacityAtLeast(sends: seq<int>, k: nat)
    requires Taking(sends, k)
    ensures Capacity(sends) >= Sum(sends[..k])
  {
    if k > 0 {
      CapacityAtLeast(sends[1..], k - 1);
      SumFront(sends[..k]);
      assert sends[..k][1..] == sends[1..][..k - 1];
    }
  }

  lemma {:induction false} CapacityReached(sends: seq<int>) returns (k: nat)
    ensures Taking(sends, k) && Capacity(sends) == Sum(sends[..k])
  {
    if sends == [] || sends[0] <= 0 {
      k := 0;
    } else {
      var rest := CapacityReached(sends[1..]);
      k := rest + 1;
      SumFront(sends[..k]);
      assert sends[..k][1..] == sends[1..][..rest];
    }
  }

  /** A slice is sent whole exactly if the file has it and the calls in front of the first refusal
      take as much together, each as little as it likes. */
  lemma SentWholeIff(file: Bytes, offset: nat, count: nat, sends: seq<int>)
    ensures Reach(count, Available(file, offset), sends) == count <==>
            (count == 0 || offset + count <= |file|) && exists k: nat :: Taking(sends, k) && Sum(sends[..k]) >= count
  {
    if k: nat :| Taking(sends, k) && Sum(sends[..k]) >= count {
      CapacityAtLeast(sends, k);
    }
    var k := CapacityReached(sends);
  }

  // ---------- when reading comes to an end ----------

  /** The two loops, one system call at a time: `left` is what is left of the block. */
  datatype Reading = Busy(kernel: Kernel, left: nat, buffer: Bytes) | Done(kernel: Kernel, buffer: Bytes)

  function Step(r: Reading): Reading {
    match r
    case Done(_, _) => r
    case Busy(k, left, buffer) =>
      var call := SysRead(k, left);
      if call.bytes == [] then
        if call.kernel.interrupted then Busy(call.kernel, left, buffer) else Done(call.kernel, buffer)
      else
        var more := buffer + call.bytes;
        if |call.bytes| < left then Busy(call.kernel, left - |call.bytes|, more)
        else Busy(call.kernel, SOCKET_BUF_SIZE, more)
  }

  function After(r: Reading, steps: nat): Reading
    decreases steps
  {
    if steps == 0 then r else After(Step(r), steps - 1)
  }

  lemma StepDelivers(k: Kernel, left: nat, buffer: Bytes)
    requires GoodKernel(k) && left > 0
    ensures var next := Step(Busy(k, left, buffer));
            if k.script == [] && !Spins(k) then
              next.Done? && next.buffer == buffer && next.kernel.script == [] && next.kernel.reported
            else
              && next.Busy? && next.left > 0 && GoodKernel(next.kernel) && (Spins(next.kernel) <==> Spins(k))
              && next.buffer + Pending(next.kernel.script) == buffer + Pending(k.script)
              && (k.script != [] ==> Work(next.kernel.script) < Work(k.script))
  {
    CallDelivers(k, left);
    var call := SysRead(k, left);
    assert (buffer + call.bytes) + Pending(call.kernel.script) == buffer + (call.bytes + Pending(call.kernel.script));
    assert buffer + [] == buffer;
  }

  /** How many calls it takes to get to the end of the script. */
  lemma {:induction false} ComesToItsEnd(k: Kernel, left: nat, buffer: Bytes) returns (steps: nat)
    requires GoodKernel(k) && left > 0 && !Spins(k)
    ensures var r := After(Busy(k, left, buffer), steps);
            r.Done? && r.buffer == buffer + Pending(k.script) && r.kernel.script == [] && r.kernel.reported
    decreases Work(k.script)
  {
    StepDelivers(k, left, buffer);
    var next := Step(Busy(k, left, buffer));
    if k.script == [] {
      assert After(next, 0) == next;
      steps := 1;
    } else {
      var rest := ComesToItsEnd(next.kernel, next.left, next.buffer);
      steps := rest + 1;
    }
  }

  lemma {:induction false} GoesOnForEver(k: Kernel, left: nat, buffer: Bytes, steps: nat)
    requires GoodKernel(k) && left > 0 && Spins(k)
    ensures After(Busy(k, left, buffer), steps).Busy?
    decreases steps
  {
    if steps > 0 {
      StepDelivers(k, left, buffer);
      var next := Step(Busy(k, left, buffer));
      GoesOnForEver(next.kernel, next.left, next.buffer, steps - 1);
    }
  }

  /** Reading returns unless the end of the file is reported while errno still says that an
      earlier call was interrupted; and then it has read everything. */
  lemma ReadingReturnsIff(k: Kernel, buffer: Bytes)
    requires GoodKernel(k)
    ensures var start := Busy(k, SOCKET_BUF_SIZE, buffer);
            && ((exists steps: nat :: After(start, steps).Done?) <==> !Spins(k))
            && forall steps: nat :: After(start, steps).Done? ==>
                 After(start, steps).buffer == buffer + Pending(k.script)
  {
    var start := Busy(k, SOCKET_BUF_SIZE, buffer);
    if Spins(k) {
      forall steps: nat
        ensures After(start, steps).Busy?
      {
        GoesOnForEver(k, SOCKET_BUF_SIZE, buffer, steps);
      }
    } else {
      var enough := ComesToItsEnd(k, SOCKET_BUF_SIZE, buffer);
      forall steps: nat | After(start, steps).Done?
        ensures After(start, steps) == After(start, enough)
      {
        DoneForGood(start, steps, enough);
      }
    }
  }

  lemma {:induction false} DoneStays(r: Reading, steps: nat)
    requires r.Done?
    ensures After(r, steps) == r
    decreases steps
  {
    if steps > 0 {
      DoneStays(r, steps - 1);
    }
  }

  lemma {:induction false} DoneForGood(r: Reading, a: nat, b: nat)
    requires After(r, a).Done? && After(r, b).Done?
    ensures After(r, a) == After(r, b)
    decreases a
  {
    if a == 0 {
      DoneStays(r, b);
    } else if b == 0 {
      DoneStays(r, a);
    } else {
      DoneForGood(Step(r), a - 1, b - 1);
    }
  }
}
