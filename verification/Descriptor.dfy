/** The read loops of util.c over a descriptor that answers as it likes. */
module Descriptor {
  import opened Base

  /** How a read() answers: with at least one and at most `n` bytes of what is asked, not now (EINTR, EAGAIN),
      or with another error. */
  datatype ReadAnswer = Chunk(n: nat) | NotNow | ReadError

  /** How a select() answers, after some time: readable, interrupted, timed out, or with another error. */
  datatype WaitAnswer = Readable(elapsed: nat) | Interrupted(elapsed: nat) | Expired | WaitError

  function SelectResult(a: WaitAnswer): int {
    match a
    case Readable(_) => 1
    case Interrupted(_) => -1
    case Expired => 0
    case WaitError => -2
  }

  /** struct timeval, in microseconds; Linux subtracts from it the time a select() took. */
  class Timeval {
    var left: nat

    constructor (left: nat)
      ensures this.left == left
    {
      this.left := left;
    }
  }

  datatype ReadResult = Got(bytes: seq<byte>) | Retry | Fail

  /** The reading end of a pipe: the bytes that will come, and the answers to the calls made on it. When an answer is
      not listed, all that is asked is there at once. `blocked` adds up the time spent in select(). Of the calls made,
      `faults` counts those that failed or timed out, and `unguarded` the read()s that were not made right after a
      select() that found the descriptor readable, as `ready` says. */
  class Reader {
    var data: seq<byte>
    var answers: seq<ReadAnswer>
    var waits: seq<WaitAnswer>
    var blocked: nat
    ghost var faults: nat
    ghost var unguarded: nat
    ghost var ready: bool

    constructor (data: seq<byte>, answers: seq<ReadAnswer>, waits: seq<WaitAnswer>)
      ensures this.data == data && this.answers == answers && this.waits == waits && blocked == 0
    {
      this.data, this.answers, this.waits := data, answers, waits;
      blocked, faults, unguarded, ready := 0, 0, 0, false;
    }

    /** No call ends in an error or in a time-out. */
    ghost predicate Calm()
      reads this
    {
      ReadError !in answers && Expired !in waits && WaitError !in waits
    }

    /** read(fd, _, len): end of file and errors are failures. */
    method Read(len: nat) returns (r: ReadResult)
      requires len > 0
      modifies this`data, this`answers, this`faults, this`unguarded, this`ready
      ensures faults == old(faults) + if r.Fail? then 1 else 0
      ensures unguarded == old(unguarded) + (if old(ready) then 0 else 1) && !ready
      ensures r.Got? ==> 0 < |r.bytes| <= len && old(data) == r.bytes + data
      ensures !r.Got? ==> data == old(data)
      ensures r.Retry? ==> |answers| < |old(answers)|
      ensures r.Fail? ==> old(data) == [] || ReadError in old(answers)
      ensures ReadError in answers ==> ReadError in old(answers)
    {
      var limit := len;
      unguarded, ready := unguarded + (if ready then 0 else 1), false;
      if answers != [] {
        var a := answers[0];
        answers := answers[1..];
        match a
        case NotNow => return Retry;
        case ReadError =>
          faults := faults + 1;
          return Fail;
        case Chunk(n) => limit := if n == 0 then 1 else if n < len then n else len;
      }
      if data == [] {
        faults := faults + 1;
        return Fail;
      }
      var n := if limit <= |data| then limit else |data|;
      r := Got(data[..n]);
      data := data[n..];
    }

    /** select(fd+1, {fd}, NULL, NULL, timeout): 1 readable, 0 timed out, -1 interrupted, -2 error */
    method Select(timeout: Timeval) returns (r: int)
      modifies this`waits, this`blocked, this`faults, this`ready, timeout
      ensures blocked + timeout.left == old(blocked) + old(timeout.left)
      ensures if old(waits) == [] then r == 1 && waits == []
              else r == SelectResult(old(waits)[0]) && waits == old(waits)[1..]
      ensures faults == old(faults) + if r == 0 || r == -2 then 1 else 0
      ensures ready == (r == 1)
      ensures r == 0 ==> timeout.left == 0
    {
      ready := false;
      if waits == [] {
        ready := true;
        return 1;
      }
      var a := waits[0];
      waits := waits[1..];
      r := SelectResult(a);
      match a
      case Readable(elapsed) =>
        Spend(timeout, elapsed);
        ready := true;
      case Interrupted(elapsed) =>
        Spend(timeout, elapsed);
      case Expired =>
        Spend(timeout, timeout.left);
        faults := faults + 1;
      case WaitError =>
        faults := faults + 1;
    }

    /** select() never takes longer than it may. */
    method Spend(timeout: Timeval, elapsed: nat)
      modifies this`blocked, timeout
      ensures blocked + timeout.left == old(blocked) + old(timeout.left)
      ensures elapsed >= old(timeout.left) ==> timeout.left == 0
    {
      var e := if elapsed <= timeout.left then elapsed else timeout.left;
      blocked := blocked + e;
      timeout.left := timeout.left - e;
    }
  }

  /** The outcome of filling a buffer of `len` bytes does not depend on how the bytes are chunked: the buffer gets the
      next `len` bytes, which are then gone, and without errors it fails only for want of bytes. It succeeds exactly if
      no call has failed or timed out. */
  twostate predicate Filled(fd: Reader, buf: array<byte>, ok: bool)
    reads fd, buf
  {
    && (ok ==>
          && |old(fd.data)| >= buf.Length && buf[..] == old(fd.data)[..buf.Length]
          && fd.data == old(fd.data)[buf.Length..])
    && (old(fd.Calm()) ==> fd.Calm() && ok == (|old(fd.data)| >= buf.Length))
    && fd.faults == old(fd.faults) + if ok then 0 else 1
  }

  /** read_with_retry */
  method ReadWithRetry(fd: Reader, buf: array<byte>) returns (ok: bool)
    modifies fd`data, fd`answers, fd`faults, fd`unguarded, fd`ready, buf
    ensures Filled(fd, buf, ok)
  {
    var pos, len := 0, buf.Length;
    while pos < len
      invariant 0 <= pos <= len && old(fd.data) == buf[..pos] + fd.data
      invariant ReadError in fd.answers ==> ReadError in old(fd.answers)
      invariant fd.faults == old(fd.faults)
      decreases len - pos, |fd.answers|
    {
      var r := fd.Read(len - pos);
      match r
      case Retry => continue;
      case Fail => return false;
      case Got(bytes) =>
        Store(buf, pos, bytes);
        pos := pos + |bytes|;
    }
    ok := true;
  }

  /** The kernel's copy into the caller's buffer. */
  method Store(buf: array<byte>, pos: nat, bytes: seq<byte>)
    requires pos + |bytes| <= buf.Length
    modifies buf
    ensures buf[..pos + |bytes|] == old(buf[..pos]) + bytes
  {
    for i := 0 to |bytes|
      invariant buf[..pos + i] == old(buf[..pos]) + bytes[..i]
    {
      buf[pos + i] := bytes[i];
    }
    assert bytes[..|bytes|] == bytes;
  }

  function Optional(timeout: Timeval?): set<object> {
    if timeout == null then {} else {timeout}
  }

  /** Time blocked comes out of the time that is left, and whoever has a time limit reads only what select() has found
      readable. */
  twostate predicate OnBudget(fd: Reader, timeout: Timeval?)
    reads fd, Optional(timeout)
  {
    if timeout == null then fd.blocked == old(fd.blocked) && fd.waits == old(fd.waits)
    else fd.blocked + timeout.left == old(fd.blocked) + old(timeout.left) && fd.unguarded == old(fd.unguarded)
  }

  /** The answers of select() that are used up when `now` are left: no time-out and no error. */
  ghost predicate UsedWell(waits: seq<WaitAnswer>, now: seq<WaitAnswer>) {
    && |now| <= |waits| && now == waits[|waits| - |now|..]
    && forall i :: 0 <= i < |waits| - |now| ==> waits[i].Readable? || waits[i].Interrupted?
  }

  lemma UsedWellTwice(waits: seq<WaitAnswer>, mid: seq<WaitAnswer>, now: seq<WaitAnswer>)
    requires UsedWell(waits, mid) && UsedWell(mid, now)
    ensures UsedWell(waits, now)
  {
    var m, n := |waits| - |mid|, |mid| - |now|;
    DropTwice(waits, m, n);
    forall i | 0 <= i < m + n
      ensures waits[i].Readable? || waits[i].Interrupted?
    {
      if i >= m { assert waits[i] == mid[i - m]; }
    }
  }

  lemma NothingUsed(waits: seq<WaitAnswer>)
    ensures UsedWell(waits, waits)
  {
  }

  lemma LeftAfter(waits: seq<WaitAnswer>, now: seq<WaitAnswer>)
    requires UsedWell(waits, now)
    ensures Expired in now ==> Expired in waits
    ensures WaitError in now ==> WaitError in waits
    ensures waits != [] && waits[0] == Expired ==> now == waits
  {
  }

  /** The inner loop of read_with_timeout: the first answer of select() that is no interruption. */
  method Await(fd: Reader, timeout: Timeval) returns (r: int)
    modifies fd`waits, fd`blocked, fd`faults, fd`ready, timeout
    ensures OnBudget(fd, timeout) && fd.ready == (r == 1) && (r == 1 || r == 0 || r == -2)
    ensures fd.faults == old(fd.faults) + if r == 1 then 0 else 1
    ensures r == 1 ==> UsedWell(old(fd.waits), fd.waits)
    ensures old(fd.waits) != [] && old(fd.waits)[0] == Expired ==> r == 0
    ensures r == 0 ==> timeout.left == 0
    ensures Expired !in old(fd.waits) && WaitError !in old(fd.waits) ==> r == 1
  {
    ghost var all, used := fd.waits, 0;
    while true
      invariant OnBudget(fd, timeout) && fd.faults == old(fd.faults)
      invariant used <= |all| && fd.waits == all[used..]
      invariant forall i :: 0 <= i < used ==> all[i].Interrupted?
      decreases |fd.waits|
    {
      assert fd.waits != [] ==> fd.waits[0] == all[used] && fd.waits[1..] == all[used + 1..];
      r := fd.Select(timeout);
      used := if used < |all| then used + 1 else used;
      if r == -1 {
        continue;
      }
      return;
    }
  }

  /** With success no wait has timed out or failed, and when the first one times out nothing is read. */
  twostate predicate WaitsHeeded(fd: Reader, timeout: Timeval?, len: nat, ok: bool)
    reads fd, Optional(timeout)
  {
    && (ok ==> UsedWell(old(fd.waits), fd.waits))
    && (timeout != null && len > 0 && old(fd.waits) != [] && old(fd.waits)[0] == Expired ==>
          !ok && fd.data == old(fd.data) && timeout.left == 0)
  }

  /** read_with_timeout */
  method ReadWithTimeout(fd: Reader, buf: array<byte>, timeout: Timeval?) returns (ok: bool)
    modifies fd, buf, Optional(timeout)
    ensures Filled(fd, buf, ok) && OnBudget(fd, timeout) && WaitsHeeded(fd, timeout, buf.Length, ok)
  {
    if timeout == null {
      ok := ReadWithRetry(fd, buf);
    } else {
      ok := ReadInTime(fd, buf, timeout);
    }
  }

  /** One turn of the outer loop of read_with_timeout: a read() after the select() that allows it. */
  method ReadOnce(fd: Reader, len: nat, timeout: Timeval) returns (r: ReadResult)
    requires len > 0
    modifies fd, timeout
    ensures OnBudget(fd, timeout)
    ensures r.Got? ==> 0 < |r.bytes| <= len && old(fd.data) == r.bytes + fd.data
    ensures !r.Got? ==> fd.data == old(fd.data)
    ensures r.Retry? ==> |fd.answers| < |old(fd.answers)|
    ensures fd.faults == old(fd.faults) + if r.Fail? then 1 else 0
    ensures !r.Fail? ==> UsedWell(old(fd.waits), fd.waits)
    ensures r.Fail? && old(fd.Calm()) ==> old(fd.data) == [] && fd.Calm()
    ensures !r.Fail? && old(fd.Calm()) ==> fd.Calm()
    ensures old(fd.waits) != [] && old(fd.waits)[0] == Expired ==> r.Fail? && timeout.left == 0
  {
    hide UsedWell;
    ghost var waits := fd.waits;
    var ret := Await(fd, timeout);
    if ret != 1 {
      return Fail;
    }
    LeftAfter(waits, fd.waits);
    r := fd.Read(len);
  }

  /** The outer loop of read_with_timeout. */
  method ReadInTime(fd: Reader, buf: array<byte>, timeout: Timeval) returns (ok: bool)
    modifies fd, buf, timeout
    ensures Filled(fd, buf, ok) && OnBudget(fd, timeout) && WaitsHeeded(fd, timeout, buf.Length, ok)
  {
    hide UsedWell, Reader.Calm;
    var pos, len := 0, buf.Length;
    NothingUsed(fd.waits);
    while pos < len
      invariant 0 <= pos <= len && old(fd.data) == buf[..pos] + fd.data
      invariant old(fd.Calm()) ==> fd.Calm()
      invariant OnBudget(fd, timeout) && fd.faults == old(fd.faults)
      invariant UsedWell(old(fd.waits), fd.waits)
      invariant pos > 0 ==> old(fd.waits) == [] || old(fd.waits)[0] != Expired
      decreases len - pos, |fd.answers|
    {
      ghost var waits := fd.waits;
      LeftAfter(old(fd.waits), waits);
      var r := ReadOnce(fd, len - pos, timeout);
      match r
      case Retry =>
        UsedWellTwice(old(fd.waits), waits, fd.waits);
        continue;
      case Fail => return false;
      case Got(bytes) =>
        UsedWellTwice(old(fd.waits), waits, fd.waits);
        Store(buf, pos, bytes);
        pos := pos + |bytes|;
    }
    ok := true;
  }
}
