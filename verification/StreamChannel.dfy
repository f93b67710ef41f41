/**
 The bounded channel between a Python iterator and the response body
 (src/streaming.rs).  The receiver belongs to the client connection.
 */
module StreamChannel {
  import opened Common

  datatype Channel = Channel(capacity: nat, queue: seq<Bytes>, connected: bool, ended: bool)
  {
    predicate HasRoom() {
      connected && |queue| < capacity
    }

    function Push(chunk: Bytes): Channel
      requires HasRoom()
    {
      this.(queue := queue + [chunk])
    }

    predicate CanReceive() {
      connected && queue != []
    }

    function Receive(): Channel
      requires CanReceive()
    {
      this.(queue := queue[1..])
    }

    /** End of stream is seen only with an empty queue and no sender left. */
    predicate CanEnd(senderGone: bool) {
      connected && !ended && queue == [] && senderGone
    }

    function Disconnect(): Channel {
      this.(connected := false, queue := [])
    }
  }

  /** What holds between the chunks produced so far, those the client received, the
      queue, and the chunks the producer still holds. */
  ghost predicate Flow(ch: Channel, produced: seq<Bytes>, received: seq<Bytes>, held: seq<Bytes>, senderGone: bool) {
    && received <= produced
    && |ch.queue| <= ch.capacity
    && (ch.connected ==> received + ch.queue + held == produced)
    && (!ch.connected ==> ch.queue == [])
    && (ch.ended ==> senderGone && received == produced && ch.queue == [])
  }

  lemma PushKeepsFlow(ch: Channel, produced: seq<Bytes>, received: seq<Bytes>, held: seq<Bytes>)
    requires Flow(ch, produced, received, held, false) && ch.HasRoom() && held != []
    ensures Flow(ch.Push(held[0]), produced, received, held[1..], false)
  {
    assert received + (ch.queue + [held[0]]) + held[1..] == received + ch.queue + held;
  }

  lemma ReceiveKeepsFlow(ch: Channel, produced: seq<Bytes>, received: seq<Bytes>, held: seq<Bytes>, senderGone: bool)
    requires Flow(ch, produced, received, held, senderGone) && ch.CanReceive()
    ensures Flow(ch.Receive(), produced, received + [ch.queue[0]], held, senderGone)
  {
    assert received + [ch.queue[0]] + ch.queue[1..] == received + ch.queue;
    assert received + [ch.queue[0]] <= received + ch.queue <= received + ch.queue + held;
  }

  lemma ProduceKeepsFlow(ch: Channel, produced: seq<Bytes>, received: seq<Bytes>, held: seq<Bytes>, chunk: Bytes)
    requires Flow(ch, produced, received, held, false)
    ensures Flow(ch, produced + [chunk], received, held + [chunk], false)
  {
    assert received + ch.queue + (held + [chunk]) == received + ch.queue + held + [chunk];
  }
}
