/** eventbus/bus.go: a topic-to-bucket registry with subscribe, unsubscribe and publish. */
module EventBus {
  import opened Wrappers
  import opened Buckets

  /** `Event`: what a handler receives. */
  datatype Event<D> = Event(data: D, topic: string)

  datatype BusError = TopicNotExist  // "topic not exist"

  /** The subscriptions of the topic-to-bucket map `subs`. */
  ghost function TopicsOf(subs: map<string, Bucket>): map<string, map<string, Handler>>
    reads set topic | topic in subs :: subs[topic]
  {
    map topic | topic in subs :: subs[topic].handlers
  }

  /** Changing one topic's handlers changes that topic only. */
  lemma TopicsAfterChange(subs: map<string, Bucket>, before: map<string, map<string, Handler>>, topic: string)
    requires topic in subs && subs.Keys == before.Keys + {topic}
    requires forall t :: t in subs && t != topic ==> subs[t].handlers == before[t]
    ensures TopicsOf(subs) == before[topic := subs[topic].handlers]
  {
  }

  /** `struct bus`: each topic seen so far owns its own bucket. */
  class Bus {
    var subscribers: map<string, Bucket>

    ghost function Buckets(): set<Bucket>
      reads this
    {
      set topic | topic in subscribers :: subscribers[topic]
    }

    /** No two topics share a bucket, and every bucket keys its handlers by name. */
    ghost predicate Valid()
      reads this, Buckets()
    {
      && (forall topic :: topic in subscribers ==> subscribers[topic].Valid())
      && (forall t, u :: t in subscribers && u in subscribers && t != u ==> subscribers[t] != subscribers[u])
    }

    /** The subscriptions: each topic with the handlers of its bucket. */
    ghost function Topics(): map<string, map<string, Handler>>
      reads this, Buckets()
    {
      TopicsOf(subscribers)
    }

    /** The handlers of `topic`, none for a topic never subscribed to. */
    ghost function HandlersOf(topic: string): map<string, Handler>
      reads this, Buckets()
    {
      if topic in subscribers then subscribers[topic].handlers else map[]
    }

    /** `NewEventBus()`: no topic. */
    constructor ()
      ensures Valid() && Topics() == map[]
    {
      subscribers := map[];
    }

    /** The first half of `Subscribe`: the topic's bucket, created empty when the topic is new. */
    method TopicBucket(topic: string) returns (bucket: Bucket)
      requires Valid()
      modifies this
      ensures Valid()
      ensures subscribers == old(subscribers)[topic := bucket]
      ensures topic in old(subscribers) ==> bucket == old(subscribers)[topic]
      ensures topic !in old(subscribers) ==> fresh(bucket) && bucket.handlers == map[]
    {
      if topic !in subscribers {
        var created := new Bucket();
        subscribers := subscribers[topic := created];
      }
      bucket := subscribers[topic];
    }

    /** `Subscribe(topic, h)`: creates the topic's bucket when the topic is new, then adds `h` to it;
        a name already subscribed to the topic is refused and nothing changes. */
    method Subscribe(topic: string, h: Handler) returns (err: Option<BucketError>)
      requires Valid()
      modifies this, Buckets()
      ensures Valid()
      ensures err.Some? <==> h.name in old(HandlersOf(topic))
      ensures err.Some? ==> Topics() == old(Topics())
      ensures err.None? ==> Topics() == old(Topics())[topic := old(HandlersOf(topic))[h.name := h]]
    {
      ghost var before, hs := Topics(), HandlersOf(topic);
      var bucket := TopicBucket(topic);
      assert bucket.handlers == hs;
      ghost var others := subscribers - {topic};
      assert forall t :: t in others ==> others[t] != bucket && others[t].handlers == before[t];
      err := bucket.Add(h);
      TopicsAfterChange(subscribers, before, topic);
      assert err.Some? ==> topic in before && before[topic] == hs;
    }

    /** `UnSubscribe(topic, h)`: an error for a topic never subscribed to; otherwise removes the name
        of `h` from the topic, whether or not it was there, and keeps the topic even when it has no
        handler left. */
    method UnSubscribe(topic: string, h: Handler) returns (err: Option<BusError>)
      requires Valid()
      modifies Buckets()
      ensures Valid()
      ensures err.Some? <==> topic !in old(Topics())
      ensures err.Some? ==> err == Some(TopicNotExist) && Topics() == old(Topics())
      ensures err.None? ==> Topics() == old(Topics())[topic := old(Topics())[topic] - {h.name}]
    {
      if topic !in subscribers {
        return Some(TopicNotExist);
      }
      var bucket := subscribers[topic];
      bucket.Remove(h);
      assert forall t :: t in subscribers && t != topic ==> subscribers[t].handlers == old(Topics())[t];
      return None;
    }

    /** `Publish(topic, data)`: for a known topic, the event and a copy of the topic's bucket taken
        now, to which the delivery goroutine hands the event; nothing for an unknown topic. The
        subscriptions do not change. */
    method Publish<D>(topic: string, data: D) returns (delivery: Option<(Event<D>, Bucket)>)
      ensures Topics() == old(Topics())
      ensures delivery.Some? <==> topic in Topics()
      ensures delivery.Some? ==> delivery.value.0 == Event(data, topic)
      ensures delivery.Some? ==> fresh(delivery.value.1) && delivery.value.1.handlers == Topics()[topic]
    {
      if topic in subscribers {
        var snapshot := subscribers[topic].DeepCopy();
        return Some((Event(data, topic), snapshot));
      }
      return None;
    }
  }
}
