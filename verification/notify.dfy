/** Notification rounds: what a cell delivers when it notifies its subscribers.

    A callback is never run here; each invocation `fn(v)` of a registered callback is
    recorded as the id of that callback's registry entry. One notification round — one
    Go `for _, fn := range subscribers` loop — delivers a single value to a multiset of
    ids. Go's map iteration order is unspecified, so a round keeps no order among its
    recipients; rounds themselves are kept in the order they happen.
 */
module Notify {

  /** One notification round: `value` was passed to every callback whose id is in
      `recipients`, as many times as the id occurs there. */
  datatype Round<K, V> = Round(value: V, recipients: multiset<K>)

  /** The round produced by ranging over `registry` and calling every callback with `v`. */
  function Broadcast<K(!new), C, V>(registry: map<K, C>, v: V): (r: Round<K, V>)
    ensures r.value == v
    ensures forall k :: r.recipients[k] == (if k in registry then 1 else 0)
  {
    Round(v, multiset(registry.Keys))
  }

  /** The Go `range` loop itself: visits the registered ids one at a time, in an order
      the caller does not control, and calls each callback once. */
  method RangeBroadcast<K(!new), C, V>(registry: map<K, C>, v: V) returns (r: Round<K, V>)
    ensures r.value == v
    ensures forall k :: r.recipients[k] == (if k in registry then 1 else 0)
    ensures r == Broadcast(registry, v)
  {
    var pending := registry.Keys;
    var called: multiset<K> := multiset{};
    while pending != {}
      invariant pending <= registry.Keys
      invariant forall k :: called[k] == (if k in registry && k !in pending then 1 else 0)
      decreases pending
    {
      var k :| k in pending;
      called := called + multiset{k};
      pending := pending - {k};
    }
    assert forall k :: called[k] == multiset(registry.Keys)[k];
    r := Round(v, called);
  }

  /** `n` copies of `v`. */
  function Repeat<V>(v: V, n: nat): (r: seq<V>)
    ensures |r| == n
    ensures forall i :: 0 <= i < n ==> r[i] == v
  {
    if n == 0 then [] else [v] + Repeat(v, n - 1)
  }

  /** The values that the subscriber with id `k` receives over `rounds`, in order. */
  function ReceivedBy<K, V>(rounds: seq<Round<K, V>>, k: K): seq<V>
  {
    if |rounds| == 0 then []
    else Repeat(rounds[0].value, rounds[0].recipients[k]) + ReceivedBy(rounds[1..], k)
  }

  /** What a subscriber receives over two consecutive stretches of rounds is what it
      receives over the first followed by what it receives over the second. */
  lemma {:induction false} ReceivedByAppend<K, V>(a: seq<Round<K, V>>, b: seq<Round<K, V>>, k: K)
    ensures ReceivedBy(a + b, k) == ReceivedBy(a, k) + ReceivedBy(b, k)
    decreases |a|
  {
    if |a| == 0 {
      assert a + b == b;
    } else {
      assert (a + b)[0] == a[0];
      assert (a + b)[1..] == a[1..] + b;
      ReceivedByAppend(a[1..], b, k);
    }
  }

  /** A subscriber that is in no round's recipients receives nothing. */
  lemma {:induction false} NotARecipientReceivesNothing<K, V>(rounds: seq<Round<K, V>>, k: K)
    requires forall j :: 0 <= j < |rounds| ==> rounds[j].recipients[k] == 0
    ensures ReceivedBy(rounds, k) == []
    decreases |rounds|
  {
    if |rounds| > 0 {
      NotARecipientReceivesNothing(rounds[1..], k);
    }
  }
}
