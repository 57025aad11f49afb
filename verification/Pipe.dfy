/**
 One direction of an in-memory pipe: a ring of bytes that writers fill and
 readers empty. The methods are the turns that are taken under its lock; the
 class invariant says what holds between them, whoever takes the next one.
 */
module Pipes {
  import opened Arithmetic

  type byte = x: int | 0 <= x < 256

  // ---------------------------------------------------------------- the ring, as a value

  /** The buffered bytes, oldest first. */
  function Ring(s: seq<byte>, head: nat, count: nat): (r: seq<byte>)
    requires head <= |s| && count <= |s|
    ensures |r| == count
  {
    if head + count <= |s| then s[head..head + count] else s[head..] + s[..head + count - |s|]
  }

  /** A position brought back into the buffer. */
  function Place(x: nat, size: nat): nat
    requires size > 0
  {
    x % size
  }

  /** A position that ran at most once past the end. */
  lemma Wrapped(x: nat, size: nat)
    requires size > 0 && x < 2 * size
    ensures Place(x, size) == if x < size then x else x - size
  {
    if x < size {
      DivModUnique(x, size, 0, x);
    } else {
      DivModUnique(x, size, 1, x - size);
    }
  }

  /** The ring holds at each place what the plain modular index says. */
  lemma RingAt(s: seq<byte>, head: nat, count: nat, k: nat)
    requires head < |s| && count <= |s| && k < count
    ensures Ring(s, head, count)[k] == s[Place(head + k, |s|)]
  {
    Wrapped(head + k, |s|);
  }

  lemma TailInside(head: nat, count: nat, size: nat)
    requires head < size && count <= size
    ensures Place(head + count, size) < size
  {
    Wrapped(head + count, size);
  }

  /** Writing at the tail adds the bytes behind those buffered. */
  lemma RingWrite(s: seq<byte>, t: seq<byte>, head: nat, count: nat, tail: nat, data: seq<byte>)
    requires |s| == |t| && head < |s| && count <= |s| && tail == Place(head + count, |s|)
    requires tail + |data| <= |s| && count + |data| <= |s|
    requires t == s[..tail] + data + s[tail + |data|..]
    ensures Ring(t, head, count + |data|) == Ring(s, head, count) + data
    ensures Place(tail + |data|, |s|) == Place(head + (count + |data|), |s|)
  {
    hide Place, Ring;
    Wrapped(head + count, |s|);
    Wrapped(tail + |data|, |s|);
    Wrapped(head + (count + |data|), |s|);
    var before, after := s[..tail], s[tail + |data|..];
    assert s[..tail] == before && |before + data + after| == |t|;
    if head + count < |s| {
      WriteBehind(s, before, data, after, head);
      assert s == before + s[tail..];
    } else {
      WriteInFront(before, s[tail..], data, after, head);
      assert s == before + s[tail..] && t == before + data + after;
      assert s[tail..][|data|..] == after;
    }
  }

  /** Nothing wraps: the bytes go behind the last one. */
  lemma WriteBehind(s: seq<byte>, before: seq<byte>, data: seq<byte>, after: seq<byte>, head: nat)
    requires before <= s && head <= |before| && |before| + |data| + |after| == |s|
    ensures Ring(before + data + after, head, |before| - head + |data|) == Ring(s, head, |before| - head) + data
  {
    var t := before + data + after;
    assert t[head..|before| + |data|] == before[head..] + data;
  }

  /** The buffered bytes wrap around, and so end in front of the head. */
  lemma WriteInFront(before: seq<byte>, rest: seq<byte>, data: seq<byte>, after: seq<byte>, head: nat)
    requires |data| <= |rest| && rest[|data|..] == after && |before| + |data| <= head < |before| + |rest|
    ensures var size := |before| + |rest|;
            Ring(before + data + after, head, size - head + |before| + |data|) ==
            Ring(before + rest, head, size - head + |before|) + data
  {
    var s, t := before + rest, before + data + after;
    assert |s| == |t|;
    assert t[..|before| + |data|] == before + data && s[..|before|] == before;
    forall i | head <= i < |s| ensures s[i] == t[i] {
      assert rest[i - |before|] == after[i - |before| - |data|];
    }
    assert t[head..] == s[head..];
    assert s[head..] + before + data == s[head..] + (before + data);
    OneEnd(s, t, head, |before|, |data|);
  }

  /** At the very end of the buffer the wrapped and the plain reading are the same. */
  lemma OneEnd(s: seq<byte>, t: seq<byte>, head: nat, n: nat, more: nat)
    requires |s| == |t| && head < |s| && n + more <= head
    ensures Ring(s, head, |s| - head + n) == s[head..] + s[..n]
    ensures Ring(t, head, |s| - head + n + more) == t[head..] + t[..n + more]
  {
  }

  /** Reading up to the end of the buffer takes the oldest bytes. */
  lemma RingRead(s: seq<byte>, head: nat, count: nat, n: nat)
    requires head < |s| && count <= |s| && n <= count && head + n <= |s|
    ensures var head' := Place(head + n, |s|);
            && head' < |s|
            && s[head..head + n] == Ring(s, head, count)[..n]
            && Ring(s, head', count - n) == Ring(s, head, count)[n..]
            && Place(head + count, |s|) == Place(head' + (count - n), |s|)
  {
    hide Place;
    Wrapped(head + n, |s|);
    var head' := Place(head + n, |s|);
    Wrapped(head + count, |s|);
    Wrapped(head' + (count - n), |s|);
  }

  // ---------------------------------------------------------------- the pipe

  /** The outcome of one turn of a writer that holds the lock. */
  datatype Turn = Wrote(n: nat) | PipeClosed | TimedOut | MustWait

  /** What a reader gets: bytes, the end of the stream, a timeout, or nothing yet. */
  datatype ReadResult = Got(data: seq<byte>) | Eof | ReadTimedOut | MustWaitForData

  /** What others do while a writer waits for room: nothing that matters, or a turn of their own. */
  datatype Meanwhile = Reads(len: nat) | Writes(p: seq<byte>) | Closes | Wakes

  /** Bytes that went in, by the call itself or by another writer during it. */
  datatype Chunk = Mine(data: seq<byte>) | Others(data: seq<byte>)

  function AllBytes(log: seq<Chunk>): seq<byte>
  {
    if log == [] then [] else AllBytes(log[..|log| - 1]) + log[|log| - 1].data
  }

  function MyBytes(log: seq<Chunk>): seq<byte>
  {
    if log == [] then []
    else MyBytes(log[..|log| - 1]) + if log[|log| - 1].Mine? then log[|log| - 1].data else []
  }

  /** How often others acted. */
  function Turns(log: seq<Chunk>): nat
  {
    if log == [] then 0 else Turns(log[..|log| - 1]) + if log[|log| - 1].Others? then 1 else 0
  }

  lemma TurnsSnoc(log: seq<Chunk>, data: seq<byte>)
    ensures Turns(log + [Others(data)]) == Turns(log) + 1 && Turns(log + [Mine(data)]) == Turns(log)
    ensures Turns([]) == 0
  {
    assert (log + [Others(data)])[..|log|] == log && (log + [Mine(data)])[..|log|] == log;
  }

  lemma BytesSnoc(log: seq<Chunk>, c: Chunk)
    ensures AllBytes(log + [c]) == AllBytes(log) + c.data
    ensures MyBytes(log + [c]) == MyBytes(log) + if c.Mine? then c.data else []
  {
    assert (log + [c])[..|log|] == log;
  }

  lemma MineMore(log: seq<Chunk>, p: seq<byte>, n: nat, k: nat, before: seq<byte>)
    requires n + k <= |p| && MyBytes(log) == p[..n]
    ensures var data := p[n..][..k];
            && MyBytes(log + [Mine(data)]) == p[..n + k]
            && before + AllBytes(log + [Mine(data)]) == (before + AllBytes(log)) + data
  {
    hide AllBytes, MyBytes;
    var data := p[n..][..k];
    BytesSnoc(log, Mine(data));
    assert p[..n] + data == p[..n + k];
    Regrouped(before, AllBytes(log), data);
  }

  lemma OthersMore(log: seq<Chunk>, data: seq<byte>, before: seq<byte>)
    ensures MyBytes(log + [Others(data)]) == MyBytes(log)
    ensures before + AllBytes(log + [Others(data)]) == (before + AllBytes(log)) + data
  {
    hide AllBytes, MyBytes;
    BytesSnoc(log, Others(data));
    Regrouped(before, AllBytes(log), data);
  }

  lemma Regrouped(a: seq<byte>, b: seq<byte>, c: seq<byte>)
    ensures a + (b + c) == (a + b) + c
  {
  }

  datatype WriteError = NoError | ErrClosedPipe | ErrTimeout | StillWaiting

  class PipeBuffer {
    const buf: array<byte>
    const size: nat
    var head: nat
    var tail: nat
    var count: nat
    var closed: bool
    /** Every byte any writer put in, and every byte any reader got, in order. */
    ghost var accepted: seq<byte>
    ghost var delivered: seq<byte>

    ghost predicate Valid()
      reads this, buf
    {
      && buf.Length == size && count <= size
      && (if size == 0 then head == 0 && tail == 0 else head < size && tail == Place(head + count, size))
      && accepted == delivered + Ring(buf[..], head, count)
    }

    constructor (size: nat)
      ensures Valid() && fresh(buf) && this.size == size && !closed
      ensures accepted == [] && delivered == []
    {
      this.size := size;
      buf := new byte[size](_ => 0);
      head, tail, count, closed := 0, 0, 0, false;
      accepted, delivered := [], [];
    }

    /** One turn of a writer's loop, under the lock: as many bytes as fit before the end of the buffer. */
    method WriteTurn(p: seq<byte>, deadlinePassed: bool) returns (turn: Turn)
      requires Valid() && p != []
      modifies this`tail, this`count, this`accepted, buf
      ensures Valid() && delivered == old(delivered)
      ensures turn.PipeClosed? <==> closed
      ensures turn.TimedOut? <==> !closed && deadlinePassed
      ensures turn.MustWait? <==> !closed && !deadlinePassed && old(count) == size
      ensures turn.Wrote? ==> turn.n == Min(|p|, Min(size - old(tail), size - old(count))) && turn.n > 0
      ensures accepted == old(accepted) + if turn.Wrote? then p[..turn.n] else []
      ensures count == old(count) + if turn.Wrote? then turn.n else 0
    {
      hide Place, Ring;
      if closed {
        return PipeClosed;
      }
      if deadlinePassed {
        return TimedOut;
      }
      if count == size {
        return MustWait;
      }
      TailInside(head, count, size);
      var spaceAtTail := size - tail;
      if spaceAtTail > size - count {
        spaceAtTail := size - count;
      }
      var toWrite := |p|;
      if toWrite > spaceAtTail {
        toWrite := spaceAtTail;
      }
      ghost var before := buf[..];
      CopyIn(p, toWrite);
      RingWrite(before, buf[..], head, count, tail, p[..toWrite]);
      tail := Place(tail + toWrite, size);
      count := count + toWrite;
      accepted := accepted + p[..toWrite];
      return Wrote(toWrite);
    }

    method CopyIn(p: seq<byte>, n: nat)
      requires buf.Length == size && n <= |p| && tail + n <= size
      modifies buf
      ensures buf[..] == old(buf[..])[..tail] + p[..n] + old(buf[..])[tail + n..]
    {
      forall k | 0 <= k < n {
        buf[tail + k] := p[k];
      }
    }

    /** Takes bytes out at the head, up to the end of the buffer. */
    method TakeOut(n: nat) returns (data: seq<byte>)
      requires Valid() && n <= count && head + n <= size && count > 0
      modifies this`head, this`count, this`delivered
      ensures Valid() && |data| == n && delivered == old(delivered) + data
    {
      hide Place, Ring;
      RingRead(buf[..], head, count, n);
      data := buf[head..head + n];
      ghost var held := Ring(buf[..], head, count);
      assert held == held[..n] + held[n..];
      head := Place(head + n, size);
      count := count - n;
      delivered := delivered + data;
      assert accepted == delivered + held[n..];
    }

    /** One turn of a reader, under the lock: the oldest bytes, as far as they lie in one piece. */
    method ReadTurn(len: nat, deadlinePassed: bool) returns (result: ReadResult)
      requires Valid()
      modifies this`head, this`count, this`delivered
      ensures Valid() && accepted == old(accepted)
      ensures result.Got? <==> old(count) > 0
      ensures result.Eof? <==> old(count) == 0 && closed
      ensures result.ReadTimedOut? <==> old(count) == 0 && !closed && deadlinePassed
      ensures delivered == old(delivered) + if result.Got? then result.data else []
      ensures result.Got? ==> |result.data| == Min(len, Min(old(count), size - old(head)))
      ensures result.Got? && len > 0 ==> result.data != []
      ensures result.Eof? ==> delivered == accepted
    {
      hide Place, Ring;
      if count > 0 {
        var readableAtHead := size - head;
        if readableAtHead > count {
          readableAtHead := count;
        }
        var toRead := len;
        if toRead > readableAtHead {
          toRead := readableAtHead;
        }
        var data := TakeOut(toRead);
        return Got(data);
      }
      if closed {
        return Eof;
      }
      if deadlinePassed {
        return ReadTimedOut;
      }
      return MustWaitForData;
    }

    /** No more bytes go in; those buffered can still be read. */
    method Close()
      requires Valid()
      modifies this`closed
      ensures Valid() && closed
    {
      closed := true;
    }

    /**
     A whole write; `passed` says at which of its turns the deadline is found to have
     passed. While it waits for room, others act as `meanwhile` says. Exactly the
     reported number of bytes went in, in order, between those of other writers, and
     everything read went out in order.
     */
    method Write(p: seq<byte>, meanwhile: seq<Meanwhile>, passed: nat -> bool)
      returns (n: nat, err: WriteError, ghost log: seq<Chunk>)
      requires Valid()
      modifies this, buf
      ensures Valid() && n <= |p|
      ensures accepted == old(accepted) + AllBytes(log) && MyBytes(log) == p[..n]
      ensures old(delivered) <= delivered
      ensures err == NoError <==> n == |p|
      ensures err == ErrClosedPipe ==> closed
      ensures old(closed) && p != [] ==> n == 0 && err == ErrClosedPipe && log == []
      ensures !old(closed) && passed(0) && p != [] ==> n == 0 && err == ErrTimeout && log == []
      ensures err == ErrTimeout ==> exists i :: passed(i)
      ensures err == StillWaiting ==> !closed && count == size && Turns(log) == |meanwhile|
      ensures !old(closed) && !passed(0) && old(count) < size && p != [] ==> n > 0
    {
      hide Valid, AllBytes, MyBytes, Turns;
      n, log := 0, [];
      TurnsSnoc([], []);
      var waits, turns := 0, 0;
      NoBytes();
      while n < |p|
        invariant Valid() && n <= |p| && waits <= |meanwhile|
        invariant accepted == old(accepted) + AllBytes(log) && MyBytes(log) == p[..n]
        invariant old(delivered) <= delivered
        invariant old(closed) ==> closed
        invariant turns == 0 ==> n == 0 && log == [] && closed == old(closed)
        invariant turns > 0 ==> !old(closed) && !passed(0) && (old(count) < size ==> n > 0)
        invariant Turns(log) == waits && (turns == 0 ==> count == old(count))
        decreases |p| - n, |meanwhile| - waits
      {
        var turn := WriteTurn(p[n..], passed(turns));
        turns := turns + 1;
        match turn {
          case PipeClosed => return n, ErrClosedPipe, log;
          case TimedOut =>
            assert passed(turns - 1);
            return n, ErrTimeout, log;
          case MustWait =>
            if waits == |meanwhile| {
              return n, StillWaiting, log;
            }
            ghost var data := Wait(meanwhile[waits]);
            OthersMore(log, data, old(accepted));
            TurnsSnoc(log, data);
            log := log + [Others(data)];
            waits := waits + 1;
          case Wrote(k) =>
            MineMore(log, p, n, k, old(accepted));
            TurnsSnoc(log, p[n..][..k]);
            log := log + [Mine(p[n..][..k])];
            n := n + k;
        }
      }
      return n, NoError, log;
    }

    /** One thing that happens while a writer waits, and what another writer puts in by it. */
    method Wait(m: Meanwhile) returns (ghost data: seq<byte>)
      requires Valid()
      modifies this`head, this`tail, this`count, this`delivered, this`accepted, this`closed, buf
      ensures Valid() && accepted == old(accepted) + data && old(delivered) <= delivered
      ensures old(closed) ==> closed
      ensures data <= if m.Writes? then m.p else []
      ensures m.Writes? && m.p != [] && !old(closed) && old(count) < size ==> data != []
      ensures m.Reads? && m.len > 0 && old(count) > 0 ==> delivered != old(delivered)
      ensures closed <==> old(closed) || m.Closes?
    {
      hide Ring, Place;
      data := [];
      match m {
        case Reads(len) => var _ := ReadTurn(len, false);
        case Writes(p) =>
          if p != [] {
            var turn := WriteTurn(p, false);
            data := if turn.Wrote? then p[..turn.n] else [];
          }
        case Closes => Close();
        case Wakes =>
      }
    }
  }

  lemma NoBytes()
    ensures AllBytes([]) == [] && MyBytes([]) == []
  {
  }
}
