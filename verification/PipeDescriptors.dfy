/** The pipe's descriptor, which the writing and the reading task share. */
module PipeDescriptors {
  import opened Pipes

  /** The reader's task, as far as its messages go. */
  class Mailbox {
    var msgs: seq<Message>

    method SendMessage(m: Message)
      modifies this
      ensures msgs == old(msgs) + [m]
    {
      msgs := msgs + [m];
    }

    method ReceiveMessage() returns (m: Option<Message>)
      modifies this
      ensures old(msgs) == [] ==> m == None && msgs == []
      ensures old(msgs) != [] ==> m == Some(old(msgs)[0]) && msgs == old(msgs)[1..]
    {
      if msgs == [] {
        return None;
      }
      m := Some(msgs[0]);
      msgs := msgs[1..];
    }
  }

  class PipeDescriptor {
    const task: Mailbox
    const data: array<Byte>
    var len: nat
    var closed: bool

    /** No message holds more than there is room for. */
    ghost predicate Valid()
      reads this, task
    {
      && data.Length == PIPE_DATA && len <= PIPE_DATA
      && forall m :: m in task.msgs && m.PipeMessage? ==> |m.data| <= PIPE_DATA
    }

    ghost function View(): Pipe
      requires Valid()
      reads this, task, data
    {
      Pipe(task.msgs, data[..len], closed)
    }

    constructor (task: Mailbox)
      requires forall m :: m in task.msgs && m.PipeMessage? ==> |m.data| <= PIPE_DATA
      ensures Valid() && View() == Pipe(task.msgs, [], false) && fresh(data) && this.task == task
    {
      this.task, len, closed := task, 0, false;
      data := new Byte[PIPE_DATA](i => 0);
    }

    /** The bytes that did not fit are moved to the front. */
    method TakeRest(count: nat)
      requires Valid() && count <= len
      modifies this`len, data
      ensures len == old(len) - count && data[..len] == old(data[..len])[count..]
    {
      len := len - count;
      forall i | 0 <= i < len {
        data[i] := data[count + i];
      }
    }

    method KeepRest(bytes: seq<Byte>)
      requires Valid() && |bytes| <= PIPE_DATA
      modifies this`len, data
      ensures len == |bytes| && data[..len] == bytes
    {
      len := |bytes|;
      forall i | 0 <= i < len {
        data[i] := bytes[i];
      }
    }

    /** At most n bytes, none at the end of the stream; without a value the reader sleeps, and goes on here when it wakes. */
    method Read(n: nat) returns (r: Option<seq<Byte>>)
      requires Valid()
      modifies this, task, data
      ensures Valid() && (View(), r) == Pipes.Read(old(View()), n)
    {
      if len > 0 {
        var count := Least(len, n);
        assert data[..len][..count] == data[..count];
        r := Some(data[..count]);
        TakeRest(count);
        return;
      }
      if closed {
        return Some([]);
      }
      while task.msgs != []
        invariant Valid() && len == 0 && !closed
        invariant Received(View(), n) == Received(old(View()), n)
        decreases |task.msgs|
      {
        var msg := task.ReceiveMessage();
        if msg.value.PipeMessage? {
          if msg.value.data == [] {
            closed := true;
            return Some([]);
          }
          var count := Least(|msg.value.data|, n);
          r := Some(msg.value.data[..count]);
          KeepRest(msg.value.data[count..]);
          return;
        }
      }
      r := None;
    }

    /** The bytes are sent in pieces, from the front. */
    method Write(buf: seq<Byte>) returns (sent: nat)
      requires Valid()
      modifies task
      ensures Valid() && task.msgs == old(task.msgs) + Pieces(buf) && sent == |buf|
    {
      sent := 0;
      while sent < |buf|
        invariant Valid() && sent <= |buf|
        invariant task.msgs + Pieces(buf[sent..]) == old(task.msgs) + Pieces(buf)
      {
        var n := if |buf| - sent < PIPE_DATA then |buf| - sent else PIPE_DATA;
        assert buf[sent..][..n] == buf[sent..sent + n] && buf[sent..][n..] == buf[sent + n..];
        ghost var before := task.msgs;
        task.SendMessage(PipeMessage(buf[sent..sent + n]));
        assert task.msgs + Pieces(buf[sent + n..]) == before + Pieces(buf[sent..]);
        sent := sent + n;
      }
    }

    method FinishWrite()
      requires Valid()
      modifies task
      ensures Valid() && task.msgs == old(task.msgs) + [END]
    {
      task.SendMessage(PipeMessage([]));
    }
  }
}
