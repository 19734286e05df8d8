/** The first, lock-free store of main.go: a value and a registry of callbacks keyed by
    UUID strings. It has no skip policy: every `Set` assigns and notifies.

    The UUID generator is outside the model; `Subscribe` takes the id it produced.
    What the store promises depends on that id being fresh, and the contracts below say
    so explicitly instead of assuming it.
 */
module SimpleStore {
  import opened Notify

  datatype Store<V, C> = Store(value: V, subscribers: map<string, C>)

  /** A store after a `Set` or `Update`, with the round it delivered. */
  datatype Step<V, C> = Step(store: Store<V, C>, round: Round<string, V>)

  /** `NewWritable(value)`. */
  function New<V, C>(value: V): (w: Store<V, C>)
    ensures w.value == value && |w.subscribers| == 0
  {
    Store(value, map[])
  }

  /** `Set(v)`: always assigns `v`, even when it equals the current value, and delivers
      it once to every registered subscriber. */
  function Set<V, C>(w: Store<V, C>, v: V): (r: Step<V, C>)
    ensures r.store.value == v && r.store.subscribers == w.subscribers
    ensures r.round.value == v
    ensures forall id :: r.round.recipients[id] == (if id in w.subscribers then 1 else 0)
  {
    Step(w.(value := v), Broadcast(w.subscribers, v))
  }

  /** `Update(updater)`: assigns the value the updater computes from the current one
      and delivers it, exactly as `Set` of that value. */
  function Update<V, C>(w: Store<V, C>, updater: V -> V): (r: Step<V, C>)
    ensures r.store.value == updater(w.value) && r.store.subscribers == w.subscribers
    ensures r.round.value == updater(w.value)
    ensures forall id :: r.round.recipients[id] == (if id in w.subscribers then 1 else 0)
  {
    Set(w, updater(w.value))
  }

  /** `Subscribe(subscriber)` with `id` the string the UUID generator produced: registers
      the callback under `id`. If `id` is fresh nothing else changes and the registry
      grows by one; a colliding id would silently replace the earlier callback. */
  function Subscribe<V, C>(w: Store<V, C>, callback: C, id: string): (r: Store<V, C>)
    ensures id in r.subscribers && r.subscribers[id] == callback
    ensures forall k :: k != id ==> (k in r.subscribers <==> k in w.subscribers)
    ensures forall k :: k != id && k in w.subscribers ==> r.subscribers[k] == w.subscribers[k]
    ensures r.value == w.value
    ensures id !in w.subscribers ==> |r.subscribers| == |w.subscribers| + 1
  {
    w.(subscribers := w.subscribers[id := callback])
  }

  /** The unsubscriber returned by `Subscribe` for `id`: deletes that entry and nothing
      else; once it is gone, calling the unsubscriber again changes nothing. */
  function Unsubscribe<V, C>(w: Store<V, C>, id: string): (r: Store<V, C>)
    ensures id !in r.subscribers
    ensures forall k :: k != id ==> (k in r.subscribers <==> k in w.subscribers)
    ensures forall k :: k in r.subscribers ==> r.subscribers[k] == w.subscribers[k]
    ensures r.value == w.value
    ensures id !in w.subscribers ==> r == w
  {
    w.(subscribers := w.subscribers - {id})
  }

  /** With a fresh id, the unsubscriber undoes its `Subscribe` exactly. */
  lemma SubscribeThenUnsubscribe<V, C>(w: Store<V, C>, callback: C, id: string)
    requires id !in w.subscribers
    ensures Unsubscribe(Subscribe(w, callback, id), id) == w
  {
    assert Subscribe(w, callback, id).subscribers - {id} == w.subscribers;
  }

  /** Unlike the cell of writable.go, this store notifies on every `Set`: setting the
      value it already holds still reaches every subscriber. */
  lemma SetNeverSkips<V, C>(w: Store<V, C>, id: string)
    requires id in w.subscribers
    ensures ReceivedBy([Set(w, w.value).round], id) == [w.value]
  {
  }

  /** The store after `Set(vs[0])`, `Set(vs[1])`, ... in order, with the rounds they
      delivered. */
  datatype Sets<V, C> = Sets(store: Store<V, C>, rounds: seq<Round<string, V>>)

  function SetAll<V, C>(w: Store<V, C>, vs: seq<V>): (r: Sets<V, C>)
    ensures r.store.subscribers == w.subscribers
    ensures |r.rounds| == |vs|
    ensures r.store.value == if |vs| == 0 then w.value else vs[|vs| - 1]
    decreases |vs|
  {
    if |vs| == 0 then Sets(w, [])
    else
      var first := Set(w, vs[0]);
      var rest := SetAll(first.store, vs[1..]);
      Sets(rest.store, [first.round] + rest.rounds)
  }

  /** A registered subscriber receives every value set, once each and in order; an id
      that is not registered receives nothing. */
  lemma {:induction false} EverySetIsDelivered<V, C>(w: Store<V, C>, vs: seq<V>, id: string)
    ensures ReceivedBy(SetAll(w, vs).rounds, id) == if id in w.subscribers then vs else []
    decreases |vs|
  {
    if |vs| > 0 {
      var first := Set(w, vs[0]);
      EverySetIsDelivered(first.store, vs[1..], id);
      assert SetAll(w, vs).rounds == [first.round] + SetAll(first.store, vs[1..]).rounds;
      assert ([first.round] + SetAll(first.store, vs[1..]).rounds)[1..] == SetAll(first.store, vs[1..]).rounds;
      if id in w.subscribers {
        assert Repeat(vs[0], 1) == [vs[0]];
        assert vs == [vs[0]] + vs[1..];
      }
    }
  }
}
