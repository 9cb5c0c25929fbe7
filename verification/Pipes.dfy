/** A pipe between two tasks: bytes travel in messages of at most 16, among messages of other kinds, to the reader's queue. */
module Pipes {
  type Byte = bv8

  const PIPE_DATA: nat := 16

  datatype Message = PipeMessage(data: seq<Byte>) | OtherMessage(code: int)

  datatype Option<T> = None | Some(value: T)

  /** The reader's messages, the bytes of a message that did not fit the last read, and whether the end was read. */
  datatype Pipe = Pipe(msgs: seq<Message>, rest: seq<Byte>, closed: bool)

  // ----- what is still to come -----

  predicate End(m: Message) {
    m.PipeMessage? && m.data == []
  }

  predicate Ended(msgs: seq<Message>) {
    exists i :: 0 <= i < |msgs| && End(msgs[i])
  }

  /** The bytes of the messages up to the first that marks the end. */
  function Pending(msgs: seq<Message>): seq<Byte> {
    if msgs == [] || End(msgs[0]) then []
    else if msgs[0].PipeMessage? then msgs[0].data + Pending(msgs[1..])
    else Pending(msgs[1..])
  }

  /** Everything that is to be read. */
  function Coming(p: Pipe): seq<Byte> {
    p.rest + if p.closed then [] else Pending(p.msgs)
  }

  predicate Finished(p: Pipe) {
    p.closed || Ended(p.msgs)
  }

  lemma {:induction false} PendingSent(msgs: seq<Message>, m: Message)
    ensures Ended(msgs) ==> Pending(msgs + [m]) == Pending(msgs)
    ensures !Ended(msgs) ==> Pending(msgs + [m]) == Pending(msgs) + if m.PipeMessage? then m.data else []
    ensures Ended(msgs + [m]) <==> Ended(msgs) || End(m)
  {
    EndedFirst(msgs);
    EndedLast(msgs, m);
    if msgs == [] {
      assert msgs + [m] == [m] && [m][1..] == [];
    } else {
      assert (msgs + [m])[1..] == msgs[1..] + [m];
      PendingSent(msgs[1..], m);
    }
  }

  lemma EndedFirst(msgs: seq<Message>)
    ensures Ended(msgs) <==> msgs != [] && (End(msgs[0]) || Ended(msgs[1..]))
  {
    if Ended(msgs) {
      var i :| 0 <= i < |msgs| && End(msgs[i]);
      if i > 0 {
        assert End(msgs[1..][i - 1]);
      }
    }
    if msgs != [] && Ended(msgs[1..]) {
      var i :| 0 <= i < |msgs| - 1 && End(msgs[1..][i]);
      assert End(msgs[i + 1]);
    }
  }

  lemma EndedLast(msgs: seq<Message>, m: Message)
    ensures Ended(msgs + [m]) <==> Ended(msgs) || End(m)
  {
    var s := msgs + [m];
    if Ended(s) {
      var i :| 0 <= i < |s| && End(s[i]);
      assert i < |msgs| ==> End(msgs[i]);
    }
    if Ended(msgs) {
      var i :| 0 <= i < |msgs| && End(msgs[i]);
      assert End(s[i]);
    }
    assert s[|msgs|] == m;
  }

  // ----- sending -----

  function Sent(p: Pipe, m: Message): Pipe {
    p.(msgs := p.msgs + [m])
  }

  /** A message adds its bytes to what is coming, unless the end was sent before. */
  lemma SentComing(p: Pipe, m: Message)
    ensures Finished(p) ==> Coming(Sent(p, m)) == Coming(p)
    ensures !Finished(p) ==> Coming(Sent(p, m)) == Coming(p) + if m.PipeMessage? then m.data else []
    ensures Finished(Sent(p, m)) <==> Finished(p) || End(m)
  {
    PendingSent(p.msgs, m);
  }

  /** The pieces in which bytes are sent. */
  function Pieces(bytes: seq<Byte>): seq<Message> {
    if bytes == [] then []
    else
      var n := if |bytes| < PIPE_DATA then |bytes| else PIPE_DATA;
      [PipeMessage(bytes[..n])] + Pieces(bytes[n..])
  }

  // ----- reading -----

  function Least(a: nat, b: nat): nat {
    if a < b then a else b
  }

  /** Messages are received until one is from the pipe; without one the reader has to wait. */
  function Received(p: Pipe, len: nat): (Pipe, Option<seq<Byte>>)
    decreases |p.msgs|
  {
    if p.msgs == [] then (p, None)
    else
      var m, q := p.msgs[0], p.(msgs := p.msgs[1..]);
      if !m.PipeMessage? then Received(q, len)
      else if m.data == [] then (q.(closed := true), Some([]))
      else (q.(rest := m.data[Least(|m.data|, len)..]), Some(m.data[..Least(|m.data|, len)]))
  }

  function Read(p: Pipe, len: nat): (Pipe, Option<seq<Byte>>) {
    if p.rest != [] then (p.(rest := p.rest[Least(|p.rest|, len)..]), Some(p.rest[..Least(|p.rest|, len)]))
    else if p.closed then (p, Some([]))
    else Received(p, len)
  }

  lemma {:induction false} ReceivedComing(p: Pipe, len: nat)
    requires p.rest == [] && !p.closed
    ensures var (q, r) := Received(p, len);
            && (r.Some? ==> Coming(p) == r.value + Coming(q) && |r.value| <= len) && (r.None? ==> Coming(q) == Coming(p) == [] && q.rest == [])
            && (Finished(q) <==> Finished(p)) && (Finished(p) ==> r.Some?)
            && (r.Some? && len > 0 ==> (r.value == [] <==> Coming(p) == [] && q.closed))
    decreases |p.msgs|
  {
    EndedFirst(p.msgs);
    if p.msgs != [] {
      var m, q := p.msgs[0], p.(msgs := p.msgs[1..]);
      if !m.PipeMessage? {
        ReceivedComing(q, len);
      } else if m.data != [] {
        assert m.data == m.data[..Least(|m.data|, len)] + m.data[Least(|m.data|, len)..];
      }
    }
  }

  /** A read takes a first part of what is coming. Once the end was sent it does not wait, and then it takes nothing only if
      nothing is left. */
  lemma ReadComing(p: Pipe, len: nat)
    ensures var (q, r) := Read(p, len);
            && (r.Some? ==> Coming(p) == r.value + Coming(q) && |r.value| <= len) && (r.None? ==> Coming(q) == Coming(p) == [])
            && (Finished(q) <==> Finished(p)) && (Finished(p) ==> r.Some?)
            && (r.Some? && len > 0 ==> (r.value == [] <==> Coming(p) == [] && q.closed))
  {
    if p.rest != [] {
      assert p.rest == p.rest[..Least(|p.rest|, len)] + p.rest[Least(|p.rest|, len)..];
    } else if !p.closed {
      ReceivedComing(p, len);
    }
  }

  // ----- runs -----

  /** The writer, or another task, sends one message; the reader tries one read. */
  datatype Event = Send(msg: Message) | TryRead(len: nat)

  /** What is read in the course of events. */
  function Run(p: Pipe, events: seq<Event>): (Pipe, seq<Byte>)
    decreases |events|
  {
    if events == [] then (p, [])
    else
      match events[0]
      case Send(m) => Run(Sent(p, m), events[1..])
      case TryRead(len) =>
        var (q, r) := Read(p, len);
        var (q', got) := Run(q, events[1..]);
        (q', (if r.Some? then r.value else []) + got)
  }

  function SentMessages(events: seq<Event>): seq<Message> {
    if events == [] then []
    else (if events[0].Send? then [events[0].msg] else []) + SentMessages(events[1..])
  }

  /** The pipe's messages among others. */
  function OfPipe(msgs: seq<Message>): seq<Message> {
    if msgs == [] then []
    else (if msgs[0].PipeMessage? then [msgs[0]] else []) + OfPipe(msgs[1..])
  }

  function BytesOf(m: Message): seq<Byte> {
    if m.PipeMessage? then m.data else []
  }

  /** What is to be read of later messages. */
  function Later(p: Pipe, msgs: seq<Message>): seq<Byte> {
    if Finished(p) then [] else Pending(msgs)
  }

  lemma Associate(a: seq<Byte>, b: seq<Byte>, c: seq<Byte>)
    ensures (a + b) + c == a + (b + c)
  {
  }

  lemma SendLater(p: Pipe, msgs: seq<Message>)
    requires msgs != []
    ensures Coming(p) + Later(p, msgs) == Coming(Sent(p, msgs[0])) + Later(Sent(p, msgs[0]), msgs[1..])
    ensures Finished(p) || Ended(msgs) <==> Finished(Sent(p, msgs[0])) || Ended(msgs[1..])
  {
    SentComing(p, msgs[0]);
    EndedFirst(msgs);
    hide Coming, Finished, Ended;
    if !Finished(p) && !End(msgs[0]) {
      Associate(Coming(p), BytesOf(msgs[0]), Pending(msgs[1..]));
    }
  }

  /** Nothing is lost, repeated or reordered: what is read and what is coming is what was coming and what is sent. */
  lemma {:induction false} RunComing(p: Pipe, events: seq<Event>)
    ensures var (q, got) := Run(p, events);
            && got + Coming(q) == Coming(p) + Later(p, SentMessages(events))
            && (Finished(q) <==> Finished(p) || Ended(SentMessages(events)))
    decreases |events|
  {
    hide Coming, Finished, Ended, Pending, Read;
    if events == [] {
      assert Pending([]) == [] by { PendingNone(); }
      EndedFirst([]);
    } else {
      var sent := SentMessages(events);
      match events[0]
      case Send(m) =>
        assert sent == [m] + SentMessages(events[1..]) && sent[1..] == SentMessages(events[1..]);
        SendLater(p, sent);
        RunComing(Sent(p, m), events[1..]);
      case TryRead(len) =>
        ReadComing(p, len);
        var (q, r) := Read(p, len);
        assert sent == SentMessages(events[1..]);
        RunComing(q, events[1..]);
        var bytes := if r.Some? then r.value else [];
        Associate(bytes, Run(q, events[1..]).1, Coming(Run(q, events[1..]).0));
        Associate(bytes, Coming(q), Later(q, sent));
    }
  }

  lemma PendingNone()
    ensures Pending([]) == []
  {
  }

  lemma {:induction false} PendingOfPipe(msgs: seq<Message>)
    ensures Pending(OfPipe(msgs)) == Pending(msgs)
    ensures Ended(OfPipe(msgs)) <==> Ended(msgs)
  {
    EndedFirst(msgs);
    EndedFirst(OfPipe(msgs));
    if msgs != [] {
      PendingOfPipe(msgs[1..]);
      if msgs[0].PipeMessage? {
        assert OfPipe(msgs)[1..] == OfPipe(msgs[1..]);
      } else {
        assert OfPipe(msgs) == OfPipe(msgs[1..]);
      }
    }
  }

  lemma {:induction false} PendingPrefix(msgs: seq<Message>, k: nat)
    requires k <= |msgs|
    ensures Pending(msgs[..k]) <= Pending(msgs)
  {
    if k > 0 && !End(msgs[0]) {
      PendingPrefix(msgs[1..], k - 1);
      assert msgs[..k][1..] == msgs[1..][..k - 1];
    }
  }

  // ----- what was written arrives -----

  function Flat(parts: seq<seq<Byte>>): seq<Byte> {
    if parts == [] then [] else parts[0] + Flat(parts[1..])
  }

  /** The messages of writes one after the other. */
  function Written(parts: seq<seq<Byte>>): seq<Message> {
    if parts == [] then [] else Pieces(parts[0]) + Written(parts[1..])
  }

  const END: Message := PipeMessage([])

  lemma PendingAfter(data: seq<Byte>, msgs: seq<Message>, more: seq<Message>)
    requires data != []
    ensures Pending(([PipeMessage(data)] + msgs) + more) == data + Pending(msgs + more)
  {
    var all := ([PipeMessage(data)] + msgs) + more;
    assert all[0] == PipeMessage(data) && all[1..] == msgs + more;
  }

  lemma {:induction false} PendingPieces(bytes: seq<Byte>, more: seq<Message>)
    ensures Pending(Pieces(bytes) + more) == bytes + Pending(more)
    ensures forall i :: 0 <= i < |Pieces(bytes)| ==> Pieces(bytes)[i].PipeMessage? && 0 < |Pieces(bytes)[i].data| <= PIPE_DATA
    decreases |bytes|
  {
    if bytes == [] {
      assert Pieces(bytes) + more == more;
    } else {
      var n := if |bytes| < PIPE_DATA then |bytes| else PIPE_DATA;
      PendingPieces(bytes[n..], more);
      assert Pieces(bytes) == [PipeMessage(bytes[..n])] + Pieces(bytes[n..]);
      hide Pieces, Pending;
      PendingAfter(bytes[..n], Pieces(bytes[n..]), more);
      Associate(bytes[..n], bytes[n..], Pending(more));
      assert bytes[..n] + bytes[n..] == bytes;
    }
  }

  lemma {:induction false} PendingWritten(parts: seq<seq<Byte>>)
    ensures Pending(Written(parts) + [END]) == Flat(parts)
  {
    if parts == [] {
      assert Written(parts) + [END] == [END];
    } else {
      var more := Written(parts[1..]) + [END];
      PendingWritten(parts[1..]);
      PendingPieces(parts[0], more);
      assert Written(parts) + [END] == Pieces(parts[0]) + more;
    }
  }

  /** Whatever is written, however it is read and whatever else is sent: what has been read is a first part of what was
      written. Once everything is written and the end is sent, the rest is what is still to be read. */
  lemma Faithful(events: seq<Event>, parts: seq<seq<Byte>>)
    requires OfPipe(SentMessages(events)) <= Written(parts) + [END]
    ensures var (q, got) := Run(Pipe([], [], false), events);
            && got <= Flat(parts)
            && (OfPipe(SentMessages(events)) == Written(parts) + [END] ==> got + Coming(q) == Flat(parts) && Finished(q))
  {
    hide *;
    var p, sent, all := Pipe([], [], false), SentMessages(events), Written(parts) + [END];
    NewPipe(sent);
    RunComing(p, events);
    PendingOfPipe(sent);
    PendingPrefix(all, |OfPipe(sent)|);
    PendingWritten(parts);
    EndedLast(Written(parts), END);
    EndIs();
    assert OfPipe(sent) == all[..|OfPipe(sent)|];
  }

  lemma NewPipe(msgs: seq<Message>)
    ensures var p := Pipe([], [], false); !Finished(p) && Coming(p) + Later(p, msgs) == Pending(msgs)
  {
  }

  lemma EndIs()
    ensures End(END)
  {
  }

  function Reads(lens: seq<nat>): seq<Event> {
    seq(|lens|, i requires 0 <= i < |lens| => TryRead(lens[i]))
  }

  /** Once the end was sent, as many reads as there are bytes left, of any lengths but 0, bring them all, and every later
      read brings none. */
  lemma {:induction false} Drained(p: Pipe, lens: seq<nat>, len: nat)
    requires Finished(p) && |lens| >= |Coming(p)| && len > 0 && forall i :: 0 <= i < |lens| ==> lens[i] > 0
    ensures var (q, got) := Run(p, Reads(lens));
            got == Coming(p) && Read(q, len).1 == Some([])
    decreases |lens|
  {
    if lens == [] {
      ReadComing(p, len);
    } else {
      ReadComing(p, lens[0]);
      assert Reads(lens)[1..] == Reads(lens[1..]);
      Drained(Read(p, lens[0]).0, lens[1..], len);
    }
  }
}
