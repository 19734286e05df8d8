/** The value cell of writable.go: a value, a per-cell subscriber counter and a
    registry of callbacks keyed by the ids that counter hands out.

    Every operation is a pure transition from one cell to the next together with the
    notification rounds it caused. The read/write lock only serialises these
    transitions, so it does not appear.
 */
module Writable {
  import opened Notify
  import opened Values

  datatype Cell<D, C> = Cell(subID: int, value: Value<D>, subscribers: map<int, C>)

  /** A cell after one or more operations, with the rounds delivered meanwhile. */
  datatype Step<D, C> = Step(cell: Cell<D, C>, rounds: seq<Round<int, Value<D>>>)

  /** What `Subscribe` returns: the cell with the new entry and the id that the returned
      unsubscriber closes over. */
  datatype Subscription<D, C> = Subscription(cell: Cell<D, C>, id: int)

  /** Every registered id was handed out by the counter, so the counter never hands
      out an id that is still registered. */
  ghost predicate Valid<D, C>(w: Cell<D, C>)
  {
    && 0 <= w.subID
    && forall id :: id in w.subscribers ==> 0 <= id < w.subID
  }

  /** `NewWritable(value)`: counter at zero, no subscribers. */
  function New<D, C>(value: Value<D>): (w: Cell<D, C>)
    ensures Valid(w)
    ensures w.value == value && |w.subscribers| == 0
  {
    Cell(0, value, map[])
  }

  /** `Set(v)`: skipped when the skip policy calls `v` equal to the current value;
      otherwise `v` becomes the value and is delivered once to every registered
      subscriber. */
  function Set<D(==), C>(w: Cell<D, C>, v: Value<D>): (r: Step<D, C>)
    ensures EqIgnorePtr(v, w.value) ==> r.cell == w && r.rounds == []
    ensures !EqIgnorePtr(v, w.value) ==>
              && r.cell.value == v
              && r.cell.subscribers == w.subscribers
              && r.cell.subID == w.subID
              && |r.rounds| == 1
              && r.rounds[0].value == v
              && forall id :: r.rounds[0].recipients[id] == (if id in w.subscribers then 1 else 0)
  {
    if EqIgnorePtr(v, w.value) then Step(w, [])
    else Step(w.(value := v), [Broadcast(w.subscribers, v)])
  }

  /** `Update(updater)`: sets the value the updater computes from the current one,
      under the same skip policy as `Set`. */
  function Update<D(==), C>(w: Cell<D, C>, updater: Value<D> -> Value<D>): (r: Step<D, C>)
    ensures var v := updater(w.value);
      && (v.Plain? && v == w.value ==> r.cell == w && r.rounds == [])
      && (v.Pointer? || v != w.value ==>
            && r.cell == w.(value := v)
            && |r.rounds| == 1
            && r.rounds[0].value == v
            && forall id :: r.rounds[0].recipients[id] == (if id in w.subscribers then 1 else 0))
  {
    Set(w, updater(w.value))
  }

  /** `Subscribe(subscriber)`: registers the callback under the current counter value,
      then advances the counter. No value is delivered to the new subscriber. */
  function Subscribe<D, C>(w: Cell<D, C>, callback: C): (r: Subscription<D, C>)
    ensures r.id == w.subID && r.cell.subID == r.id + 1
    ensures r.cell.value == w.value
    ensures r.id in r.cell.subscribers && r.cell.subscribers[r.id] == callback
    ensures forall id :: id != r.id ==> (id in r.cell.subscribers <==> id in w.subscribers)
    ensures forall id :: id in w.subscribers && id != r.id ==> r.cell.subscribers[id] == w.subscribers[id]
    ensures Valid(w) ==> Valid(r.cell) && r.id !in w.subscribers
  {
    Subscription(Cell(w.subID + 1, w.value, w.subscribers[w.subID := callback]), w.subID)
  }

  /** The unsubscriber returned by `Subscribe` for `id`: deletes that entry and
      nothing else; deleting an id that is not registered changes nothing. */
  function Unsubscribe<D, C>(w: Cell<D, C>, id: int): (r: Cell<D, C>)
    ensures id !in r.subscribers
    ensures forall k :: k != id ==> (k in r.subscribers <==> k in w.subscribers)
    ensures forall k :: k in r.subscribers ==> r.subscribers[k] == w.subscribers[k]
    ensures r.value == w.value && r.subID == w.subID
    ensures id !in w.subscribers ==> r == w
    ensures Valid(w) ==> Valid(r)
  {
    w.(subscribers := w.subscribers - {id})
  }

  /** Subscribing and then calling the unsubscriber gives back the cell it started
      from, except that the id it used is spent. */
  lemma SubscribeThenUnsubscribe<D, C>(w: Cell<D, C>, callback: C)
    requires Valid(w)
    ensures var s := Subscribe(w, callback);
            Unsubscribe(s.cell, s.id) == w.(subID := w.subID + 1)
  {
    var s := Subscribe(w, callback);
    assert s.cell.subscribers - {s.id} == w.subscribers;
  }

  /** Calling an unsubscriber a second time is a no-op. */
  lemma UnsubscribeIdempotent<D, C>(w: Cell<D, C>, id: int)
    ensures Unsubscribe(Unsubscribe(w, id), id) == Unsubscribe(w, id)
  {
  }

  /** Setting the same plain value twice notifies only once; setting the same pointer
      twice notifies twice. */
  lemma SetTwice<D, C>(w: Cell<D, C>, v: Value<D>)
    ensures var first := Set(w, v);
            var second := Set(first.cell, v);
            && first.cell.value == v
            && (v.Plain? ==> second.cell == first.cell && second.rounds == [])
            && (v.Pointer? ==> |second.rounds| == 1 && second.rounds[0].value == v)
  {
  }

  /** One call on the cell. `UnsubscribeOp(id)` is a call of the unsubscriber that
      `Subscribe` returned for `id`. */
  datatype Op<!D, C> =
    | SetOp(v: Value<D>)
    | UpdateOp(updater: Value<D> -> Value<D>)
    | SubscribeOp(callback: C)
    | UnsubscribeOp(id: int)

  /** The outcome of a sequence of calls: the final cell, every round delivered, and the
      ids handed out by the `Subscribe` calls, in call order. */
  datatype Trace<D, C> = Trace(cell: Cell<D, C>, rounds: seq<Round<int, Value<D>>>, issued: seq<int>)

  /** Performs one call. */
  function Perform<D(==), C>(w: Cell<D, C>, op: Op<D, C>): (r: Trace<D, C>)
    ensures |r.issued| <= 1
    ensures |r.issued| == 1 <==> op.SubscribeOp?
    ensures r.cell.subID == w.subID + |r.issued|
    ensures |r.issued| == 1 ==> r.issued[0] == w.subID
    ensures Valid(w) ==> Valid(r.cell)
  {
    match op
    case SetOp(v) =>
      var s := Set(w, v);
      Trace(s.cell, s.rounds, [])
    case UpdateOp(f) =>
      var s := Update(w, f);
      Trace(s.cell, s.rounds, [])
    case SubscribeOp(cb) =>
      var s := Subscribe(w, cb);
      Trace(s.cell, [], [s.id])
    case UnsubscribeOp(id) =>
      Trace(Unsubscribe(w, id), [], [])
  }

  /** Performs `ops` one after another. The ids handed out are consecutive counter
      values starting at the counter of `w`, so they strictly increase and are never
      handed out twice; validity of the cell is kept throughout. */
  function Run<D(==), C>(w: Cell<D, C>, ops: seq<Op<D, C>>): (r: Trace<D, C>)
    ensures |r.issued| <= |ops|
    ensures r.cell.subID == w.subID + |r.issued|
    ensures forall i :: 0 <= i < |r.issued| ==> r.issued[i] == w.subID + i
    ensures Valid(w) ==> Valid(r.cell)
    decreases |ops|
  {
    if |ops| == 0 then Trace(w, [], [])
    else
      var first := Perform(w, ops[0]);
      var rest := Run(first.cell, ops[1..]);
      Trace(rest.cell, first.rounds + rest.rounds, first.issued + rest.issued)
  }

  /** Ids are never reused: every id a run hands out differs from every id registered
      before it and from every other id the run hands out. */
  lemma IssuedIdsAreFresh<D, C>(w: Cell<D, C>, ops: seq<Op<D, C>>)
    requires Valid(w)
    ensures var issued := Run(w, ops).issued;
            && (forall i, j :: 0 <= i < j < |issued| ==> issued[i] < issued[j])
            && (forall i :: 0 <= i < |issued| ==> issued[i] !in w.subscribers)
  {
  }

  /** An id that was handed out and is no longer registered receives nothing from any
      later sequence of calls. */
  lemma {:induction false} SpentIdReceivesNothing<D, C>(w: Cell<D, C>, ops: seq<Op<D, C>>, id: int)
    requires Valid(w) && id < w.subID && id !in w.subscribers
    ensures ReceivedBy(Run(w, ops).rounds, id) == []
    decreases |ops|
  {
    if |ops| > 0 {
      var first := Perform(w, ops[0]);
      assert forall j :: 0 <= j < |first.rounds| ==> first.rounds[j].recipients[id] == 0;
      NotARecipientReceivesNothing(first.rounds, id);
      assert id !in first.cell.subscribers;
      SpentIdReceivesNothing(first.cell, ops[1..], id);
      ReceivedByAppend(first.rounds, Run(first.cell, ops[1..]).rounds, id);
    }
  }

  /** After its unsubscriber has been called, a subscriber receives nothing from any
      later calls on the cell. */
  lemma UnsubscribeIsFinal<D, C>(w: Cell<D, C>, id: int, ops: seq<Op<D, C>>)
    requires Valid(w) && id in w.subscribers
    ensures ReceivedBy(Run(Unsubscribe(w, id), ops).rounds, id) == []
  {
    SpentIdReceivesNothing(Unsubscribe(w, id), ops, id);
  }

  /** The calls `Set(vs[0])`, `Set(vs[1])`, ... in order. */
  function SetsOf<D, C>(vs: seq<Value<D>>): (ops: seq<Op<D, C>>)
    ensures |ops| == |vs|
    ensures forall i :: 0 <= i < |vs| ==> ops[i] == SetOp(vs[i])
  {
    if |vs| == 0 then [] else [SetOp(vs[0])] + SetsOf(vs[1..])
  }

  /** The values among `vs` that change the cell, starting from `current`: a value the
      skip policy calls equal to the value before it is dropped. */
  function Committed<D(==)>(current: Value<D>, vs: seq<Value<D>>): seq<Value<D>>
    decreases |vs|
  {
    if |vs| == 0 then []
    else if EqIgnorePtr(vs[0], current) then Committed(current, vs[1..])
    else [vs[0]] + Committed(vs[0], vs[1..])
  }

  /** A subscriber that stays registered through a run of `Set` calls receives exactly
      the values that were not skipped, each once, in call order. */
  lemma {:induction false} SubscriberReceivesEveryCommit<D, C>(w: Cell<D, C>, vs: seq<Value<D>>, id: int)
    requires id in w.subscribers
    ensures ReceivedBy(Run(w, SetsOf<D, C>(vs)).rounds, id) == Committed(w.value, vs)
    decreases |vs|
  {
    if |vs| > 0 {
      var ops := SetsOf<D, C>(vs);
      assert ops[0] == SetOp(vs[0]);
      assert ops[1..] == SetsOf<D, C>(vs[1..]);
      var s := Set(w, vs[0]);
      assert Perform(w, ops[0]) == Trace(s.cell, s.rounds, []);
      SubscriberReceivesEveryCommit(s.cell, vs[1..], id);
      ReceivedByAppend(s.rounds, Run(s.cell, ops[1..]).rounds, id);
      if !EqIgnorePtr(vs[0], w.value) {
        assert ReceivedBy(s.rounds, id) == [vs[0]];
      }
    }
  }

  /** With pointer values nothing is ever skipped: a subscriber receives every value set,
      even one equal to the value already held. */
  lemma {:induction false} PointersAreNeverSkipped<D>(current: Value<D>, vs: seq<Value<D>>)
    requires forall i :: 0 <= i < |vs| ==> vs[i].Pointer?
    ensures Committed(current, vs) == vs
    decreases |vs|
  {
    if |vs| > 0 {
      PointersAreNeverSkipped(vs[0], vs[1..]);
    }
  }
}
