/** The in-memory transport: a mutex-guarded map from topics to channels, each a queue. */
module Transport {
  import opened ByteStrings

  type Topic = Bytes
  type Envelope = Bytes

  class Channel {
    var queue: seq<Envelope>

    constructor ()
      ensures queue == []
    {
      queue := [];
    }
  }

  /** One attempt to receive: a message, or the caller goes on waiting. */
  datatype Poll = Ready(envelope: Envelope) | Pending

  class InMemoryTransport {
    var inner: map<Topic, Channel>

    /** No two topics share a channel. */
    ghost predicate Valid()
      reads this
    {
      forall t, u :: t in inner && u in inner && t != u ==> inner[t] != inner[u]
    }

    /** What has been sent on a topic and not yet received. */
    ghost function Queue(t: Topic): seq<Envelope>
      reads this, inner.Values
    {
      if t in inner then inner[t].queue else []
    }

    constructor ()
      ensures Valid() && forall t :: Queue(t) == []
    {
      inner := map[];
    }

    /** The topic's channel, made on first use and never replaced. */
    method ChannelFor(topic: Topic) returns (c: Channel)
      requires Valid()
      modifies this
      ensures Valid() && inner == old(inner)[topic := c]
      ensures topic in old(inner) ==> inner == old(inner)
      ensures topic !in old(inner) ==> fresh(c) && c.queue == []
      ensures forall t :: Queue(t) == old(Queue(t))
    {
      if topic !in inner {
        var made := new Channel();
        inner := inner[topic := made];
      }
      c := inner[topic];
    }

    method Send(topic: Topic, envelope: Envelope)
      requires Valid()
      modifies this, inner.Values
      ensures Valid()
      ensures Queue(topic) == old(Queue(topic)) + [envelope]
      ensures forall t :: t != topic ==> Queue(t) == old(Queue(t))
      ensures forall t :: t in old(inner) ==> t in inner && inner[t] == old(inner[t])
    {
      var tx := ChannelFor(topic);
      tx.queue := tx.queue + [envelope];
    }

    method Recv(topic: Topic) returns (r: Poll)
      requires Valid()
      modifies this, inner.Values
      ensures Valid()
      ensures r == if old(Queue(topic)) == [] then Pending else Ready(old(Queue(topic))[0])
      ensures Queue(topic) == if old(Queue(topic)) == [] then [] else old(Queue(topic))[1..]
      ensures forall t :: t != topic ==> Queue(t) == old(Queue(t))
      ensures forall t :: t in old(inner) ==> t in inner && inner[t] == old(inner[t])
    {
      var rx := ChannelFor(topic);
      if rx.queue == [] {
        r := Pending;
      } else {
        r := Ready(rx.queue[0]);
        rx.queue := rx.queue[1..];
      }
    }
  }
}
