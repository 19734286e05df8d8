/** The subscriber dispatcher of subscribers.go: a loop that owns the registry and
    executes `Add`, `Remove` and `Callback` commands one at a time, in queue order.

    The dispatcher's state is its own record: the registry, the running flag, the number
    of acknowledgements given so far (each `wg.Done()`), and the cell's current value,
    which a `Callback` reads instead of carrying a value of its own. Locks, the channel
    and the blocking of the wait group are left to the concurrent implementation.
 */
module Subscribers {
  import opened Notify

  /** A queued command. The constructors stand for `newSubAdd(id, fn)`,
      `newSubRemove(id)` and `newSubCallback()`; a Go `subUpdater` also holds the fields
      its kind does not use, at their zero values, and those are not represented. */
  datatype Command<C> = SubAdd(id: int, callback: C) | SubRemove(id: int) | SubCallback

  datatype Dispatcher<V, C> = Dispatcher(value: V, subscribers: map<int, C>, running: bool, acks: nat)

  /** `subAdd(id, fn)`: registers `fn` under `id`, replacing an entry already there. */
  function Add<V, C>(d: Dispatcher<V, C>, id: int, fn: C): (r: Dispatcher<V, C>)
    ensures id in r.subscribers && r.subscribers[id] == fn
    ensures forall k :: k != id ==> (k in r.subscribers <==> k in d.subscribers)
    ensures forall k :: k != id && k in d.subscribers ==> r.subscribers[k] == d.subscribers[k]
    ensures r.value == d.value && r.running == d.running && r.acks == d.acks
  {
    d.(subscribers := d.subscribers[id := fn])
  }

  /** The dispatcher after `subRemove`, and the `stop` it returns. */
  datatype Removal<V, C> = Removal(dispatcher: Dispatcher<V, C>, stop: bool)

  /** `subRemove(id)`: deletes `id`, acknowledges once, and asks the loop to stop exactly
      when the registry is now empty, in which case the dispatcher is no longer running. */
  function Remove<V, C>(d: Dispatcher<V, C>, id: int): (r: Removal<V, C>)
    ensures r.dispatcher.subscribers.Keys == d.subscribers.Keys - {id}
    ensures forall k :: k in r.dispatcher.subscribers ==> r.dispatcher.subscribers[k] == d.subscribers[k]
    ensures r.stop <==> r.dispatcher.subscribers == map[]
    ensures r.dispatcher.running == (d.running && !r.stop)
    ensures r.dispatcher.acks == d.acks + 1
    ensures r.dispatcher.value == d.value
  {
    var rest := d.subscribers - {id};
    if |rest| == 0 then Removal(d.(subscribers := rest, running := false, acks := d.acks + 1), true)
    else Removal(d.(subscribers := rest, acks := d.acks + 1), false)
  }

  /** The dispatcher after `subCallback`, and the round it delivered. */
  datatype Delivery<V, C> = Delivery(dispatcher: Dispatcher<V, C>, round: Round<int, V>)

  /** `subCallback()`: calls every registered callback once with the current value, then
      acknowledges once. The registry is not changed. */
  function Callback<V, C>(d: Dispatcher<V, C>): (r: Delivery<V, C>)
    ensures r.round.value == d.value
    ensures forall k :: r.round.recipients[k] == (if k in d.subscribers then 1 else 0)
    ensures r.dispatcher == d.(acks := d.acks + 1)
  {
    Delivery(d.(acks := d.acks + 1), Broadcast(d.subscribers, d.value))
  }

  // Reference definitions: what a command queue does to the registry and the
  // acknowledgement count, stated without the loop.

  /** The registry after one command, were it executed. */
  function Applied<C>(registry: map<int, C>, c: Command<C>): map<int, C>
  {
    match c
    case SubAdd(id, fn) => registry[id := fn]
    case SubRemove(id) => registry - {id}
    case SubCallback => registry
  }

  /** The registry after executing every command of `cmds`, in order. */
  function RegistryAfter<C>(registry: map<int, C>, cmds: seq<Command<C>>): map<int, C>
    decreases |cmds|
  {
    if |cmds| == 0 then registry else RegistryAfter(Applied(registry, cmds[0]), cmds[1..])
  }

  /** The command at `i` is a removal that leaves the registry empty. */
  ghost predicate StopsAt<C>(registry: map<int, C>, cmds: seq<Command<C>>, i: int)
    requires 0 <= i < |cmds|
  {
    cmds[i].SubRemove? && RegistryAfter(registry, cmds[..i]) - {cmds[i].id} == map[]
  }

  /** Number of commands that are acknowledged: removals and callbacks. */
  function AckCount<C>(cmds: seq<Command<C>>): nat
    decreases |cmds|
  {
    if |cmds| == 0 then 0
    else (if cmds[0].SubAdd? then 0 else 1) + AckCount(cmds[1..])
  }

  /** Number of callback commands. */
  function CallbackCount<C>(cmds: seq<Command<C>>): nat
    decreases |cmds|
  {
    if |cmds| == 0 then 0
    else (if cmds[0].SubCallback? then 1 else 0) + CallbackCount(cmds[1..])
  }

  /** The rounds that executing every command of `cmds` in order delivers: one per
      callback, to the registry as it stands at that callback, carrying `value`. */
  function DeliveriesOf<C, V>(registry: map<int, C>, value: V, cmds: seq<Command<C>>): seq<Round<int, V>>
    decreases |cmds|
  {
    if |cmds| == 0 then []
    else (if cmds[0].SubCallback? then [Broadcast(registry, value)] else [])
         + DeliveriesOf(Applied(registry, cmds[0]), value, cmds[1..])
  }

  /** One command's effect seen from the first command of a queue: the reference
      definitions of the queue `cmds` up to position `k + 1` are those of the queue that
      follows its first command, up to `k`, started from the registry that first command
      leaves. */
  lemma PrefixShift<C, V>(registry: map<int, C>, cmds: seq<Command<C>>, k: nat)
    requires k < |cmds|
    ensures RegistryAfter(registry, cmds[..k + 1]) == RegistryAfter(Applied(registry, cmds[0]), cmds[1..][..k])
    ensures AckCount(cmds[..k + 1]) == (if cmds[0].SubAdd? then 0 else 1) + AckCount(cmds[1..][..k])
    ensures CallbackCount(cmds[..k + 1]) == (if cmds[0].SubCallback? then 1 else 0) + CallbackCount(cmds[1..][..k])
    ensures forall v: V :: DeliveriesOf(registry, v, cmds[..k + 1])
              == (if cmds[0].SubCallback? then [Broadcast(registry, v)] else [])
                 + DeliveriesOf(Applied(registry, cmds[0]), v, cmds[1..][..k])
  {
    assert cmds[..k + 1][0] == cmds[0];
    assert cmds[..k + 1][1..] == cmds[1..][..k];
  }

  /** Where the loop stops, seen from the first command of a queue. */
  lemma StopsAtShift<C>(registry: map<int, C>, cmds: seq<Command<C>>, i: nat)
    requires i + 1 < |cmds|
    ensures StopsAt(registry, cmds, i + 1) == StopsAt(Applied(registry, cmds[0]), cmds[1..], i)
  {
    PrefixShift<C, ()>(registry, cmds, i);
  }

  /** The outcome of the loop: the final dispatcher, the rounds delivered in order, how
      many commands were taken from the queue, and whether the loop returned because a
      removal emptied the registry (rather than because the queue ran out). */
  datatype Outcome<V, C> = Outcome(final: Dispatcher<V, C>, rounds: seq<Round<int, V>>, processed: nat, stopped: bool)

  /** What one pass of the loop body did: the dispatcher afterwards, the rounds it
      delivered, and whether the loop must return. */
  datatype Executed<V, C> = Executed(dispatcher: Dispatcher<V, C>, rounds: seq<Round<int, V>>, stop: bool)

  /** The `switch` in `subController`: dispatches one command to `subAdd`, `subRemove`
      or `subCallback`. Only a removal that empties the registry stops the loop; only a
      callback delivers; an addition is the one command not acknowledged. */
  function Execute<V, C>(d: Dispatcher<V, C>, c: Command<C>): (r: Executed<V, C>)
    ensures r.dispatcher.subscribers == Applied(d.subscribers, c)
    ensures r.dispatcher.acks == d.acks + (if c.SubAdd? then 0 else 1)
    ensures r.stop <==> c.SubRemove? && Applied(d.subscribers, c) == map[]
    ensures r.dispatcher.running == (d.running && !r.stop)
    ensures r.dispatcher.value == d.value
    ensures |r.rounds| == (if c.SubCallback? then 1 else 0)
    ensures forall j :: 0 <= j < |r.rounds| ==> r.rounds[j].value == d.value
  {
    match c
    case SubAdd(id, fn) => Executed(Add(d, id, fn), [], false)
    case SubRemove(id) =>
      var rm := Remove(d, id);
      Executed(rm.dispatcher, [], rm.stop)
    case SubCallback =>
      var cb := Callback(d);
      Executed(cb.dispatcher, [cb.round], false)
  }

  /** `subController()`: takes the commands in queue order and executes each; returns
      right after a removal that empties the registry, leaving every later command
      untouched. Every round carries the cell's value, never one of its own. */
  function Controller<V, C>(d: Dispatcher<V, C>, cmds: seq<Command<C>>): (r: Outcome<V, C>)
    ensures r.processed <= |cmds| && |r.rounds| <= r.processed
    ensures !r.stopped ==> r.processed == |cmds| && r.final.running == d.running
    ensures r.stopped ==> 0 < r.processed && cmds[r.processed - 1].SubRemove?
    ensures r.stopped ==> r.final.subscribers == map[] && !r.final.running
    ensures forall j :: 0 <= j < |r.rounds| ==> r.rounds[j].value == d.value
    ensures r.final.value == d.value
    decreases |cmds|
  {
    if |cmds| == 0 then Outcome(d, [], 0, false)
    else
      var e := Execute(d, cmds[0]);
      if e.stop then Outcome(e.dispatcher, e.rounds, 1, true)
      else
        var rest := Controller(e.dispatcher, cmds[1..]);
        Outcome(rest.final, e.rounds + rest.rounds, rest.processed + 1, rest.stopped)
  }

  /** The loop ends on a removal that empties the registry it finds. */
  lemma {:induction false} ControllerStopsOnEmptyingRemove<V, C>(d: Dispatcher<V, C>, cmds: seq<Command<C>>)
    ensures var r := Controller(d, cmds);
            r.stopped ==> StopsAt(d.subscribers, cmds, r.processed - 1)
    decreases |cmds|
  {
    if |cmds| > 0 {
      var e := Execute(d, cmds[0]);
      assert cmds[..0] == [];
      if !e.stop {
        var rest := Controller(e.dispatcher, cmds[1..]);
        ControllerStopsOnEmptyingRemove(e.dispatcher, cmds[1..]);
        if rest.stopped {
          StopsAtShift(d.subscribers, cmds, rest.processed - 1);
        }
      }
    }
  }

  /** No command before the one that ends the loop is a removal that empties the
      registry; if the loop consumed the whole queue, no command is. So the loop stops
      at the first such removal and nowhere else. */
  lemma {:induction false} ControllerRunsUntilFirstEmptyingRemove<V, C>(d: Dispatcher<V, C>, cmds: seq<Command<C>>)
    ensures var r := Controller(d, cmds);
            var last := if r.stopped then r.processed - 1 else r.processed;
            forall i :: 0 <= i < last ==> !StopsAt(d.subscribers, cmds, i)
    decreases |cmds|
  {
    if |cmds| > 0 {
      var e := Execute(d, cmds[0]);
      assert cmds[..0] == [];
      assert StopsAt(d.subscribers, cmds, 0) == e.stop;
      if !e.stop {
        var rest := Controller(e.dispatcher, cmds[1..]);
        assert Controller(d, cmds).processed == rest.processed + 1;
        assert Controller(d, cmds).stopped == rest.stopped;
        ControllerRunsUntilFirstEmptyingRemove(e.dispatcher, cmds[1..]);
        forall i | 0 <= i < |cmds|
          ensures StopsAt(d.subscribers, cmds, i) <==> 0 < i && StopsAt(e.dispatcher.subscribers, cmds[1..], i - 1)
        {
          if 0 < i {
            StopsAtShift(d.subscribers, cmds, i - 1);
          }
        }
      }
    }
  }

  /** What the loop leaves behind is what the processed commands, executed in order, do
      to the registry; the acknowledgements it gives are one per processed removal or
      callback and none per addition; it delivers one round per processed callback. */
  lemma {:induction false} ControllerFollowsQueue<V, C>(d: Dispatcher<V, C>, cmds: seq<Command<C>>)
    ensures var r := Controller(d, cmds);
            && r.final.subscribers == RegistryAfter(d.subscribers, cmds[..r.processed])
            && r.final.acks == d.acks + AckCount(cmds[..r.processed])
            && |r.rounds| == CallbackCount(cmds[..r.processed])
            && r.rounds == DeliveriesOf(d.subscribers, d.value, cmds[..r.processed])
    decreases |cmds|
  {
    if |cmds| > 0 {
      var e := Execute(d, cmds[0]);
      if e.stop {
        assert cmds[..1][1..] == [];
        PrefixShift<C, V>(d.subscribers, cmds, 0);
      } else {
        var rest := Controller(e.dispatcher, cmds[1..]);
        ControllerFollowsQueue(e.dispatcher, cmds[1..]);
        PrefixShift<C, V>(d.subscribers, cmds, rest.processed);
      }
    }
  }

  /** Once the loop has returned, commands queued behind the one that stopped it make no
      difference: they are never executed. */
  lemma {:induction false} LaterCommandsIgnored<V, C>(d: Dispatcher<V, C>, cmds: seq<Command<C>>, later: seq<Command<C>>)
    requires Controller(d, cmds).stopped
    ensures Controller(d, cmds + later) == Controller(d, cmds)
    decreases |cmds|
  {
    var e := Execute(d, cmds[0]);
    assert (cmds + later)[0] == cmds[0];
    if !e.stop {
      assert (cmds + later)[1..] == cmds[1..] + later;
      LaterCommandsIgnored(e.dispatcher, cmds[1..], later);
    }
  }

  /** One turn of the loop on a command that does not stop it, followed by the rest. */
  lemma ControllerStep<V, C>(d: Dispatcher<V, C>, cmds: seq<Command<C>>)
    requires |cmds| > 0 && !Execute(d, cmds[0]).stop
    ensures var e := Execute(d, cmds[0]);
            var rest := Controller(e.dispatcher, cmds[1..]);
            Controller(d, cmds) == Outcome(rest.final, e.rounds + rest.rounds, rest.processed + 1, rest.stopped)
  {
  }

  /** A queue consumed without stopping hands the loop over to whatever is queued next:
      the outcome on `a + b` is the outcome on `a` followed by the outcome on `b`, started
      from the dispatcher `a` left behind. */
  lemma {:induction false} ControllerContinues<V, C>(d: Dispatcher<V, C>, a: seq<Command<C>>, b: seq<Command<C>>)
    requires !Controller(d, a).stopped
    ensures var ra := Controller(d, a);
            var rb := Controller(ra.final, b);
            Controller(d, a + b) == Outcome(rb.final, ra.rounds + rb.rounds, |a| + rb.processed, rb.stopped)
    decreases |a|
  {
    if |a| == 0 {
      assert a + b == b;
    } else {
      var e := Execute(d, a[0]);
      assert !e.stop;
      ControllerStep(d, a);
      assert (a + b)[0] == a[0] && (a + b)[1..] == a[1..] + b;
      ControllerStep(d, a + b);
      ControllerContinues(e.dispatcher, a[1..], b);
      var ra := Controller(e.dispatcher, a[1..]);
      var rb := Controller(ra.final, b);
      assert (e.rounds + ra.rounds) + rb.rounds == e.rounds + (ra.rounds + rb.rounds);
    }
  }

  /** The first half of the scenario below: two additions and a callback reaching both. */
  lemma BothSubscribersAdded(d: Dispatcher<int, ()>)
    requires d.subscribers == map[] && d.acks == 0
    ensures var r := Controller(d, [SubAdd(0, ()), SubAdd(1, ()), SubCallback]);
            && !r.stopped && r.final == d.(subscribers := map[0 := (), 1 := ()], acks := 1)
            && |r.rounds| == 1 && r.rounds[0].recipients == multiset{0, 1}
  {
    var cmds: seq<Command<()>> := [SubAdd(0, ()), SubAdd(1, ()), SubCallback];
    var both := map[0 := (), 1 := ()];
    assert map[0 := ()][1 := ()] == both;
    ControllerStep(d, cmds);
    assert cmds[1..] == [SubAdd(1, ()), SubCallback];
    ControllerStep(d.(subscribers := map[0 := ()]), cmds[1..]);
    assert cmds[1..][1..] == [SubCallback];
    ControllerStep(d.(subscribers := both), cmds[1..][1..]);
    assert cmds[1..][1..][1..] == [];
    assert Broadcast(both, d.value).recipients == multiset{0, 1} by {
      assert both.Keys == {0, 1};
    }
  }

  /** Two subscribers come and go: both receive the first callback, only the second
      receives the next one, and removing it ends the loop before the last callback.
      Four acknowledgements are given, for two removals and two callbacks. */
  lemma TwoSubscribersScenario(d: Dispatcher<int, ()>)
    requires d.subscribers == map[] && d.acks == 0
    ensures var r := Controller(d, [SubAdd(0, ()), SubAdd(1, ()), SubCallback]
                                   + [SubRemove(0), SubCallback, SubRemove(1), SubCallback]);
            && r.stopped && r.processed == 6 && r.final.acks == 4 && !r.final.running
            && |r.rounds| == 2
            && r.rounds[0].recipients == multiset{0, 1}
            && r.rounds[1].recipients == multiset{1}
  {
    BothSubscribersAdded(d);
    SecondSubscriberLeavesLast(d.(subscribers := map[0 := (), 1 := ()], acks := 1));
    ControllerContinues(d, [SubAdd(0, ()), SubAdd(1, ()), SubCallback],
                        [SubRemove(0), SubCallback, SubRemove(1), SubCallback]);
  }

  /** The rest of the scenario: with both subscribers registered, removing the first
      keeps the loop going, the callback reaches only the second, and removing the second
      stops the loop before the last callback. */
  lemma SecondSubscriberLeavesLast(d: Dispatcher<int, ()>)
    requires d.subscribers == map[0 := (), 1 := ()] && d.acks == 1
    ensures var r := Controller(d, [SubRemove(0), SubCallback, SubRemove(1), SubCallback]);
            && r.stopped && r.processed == 3 && r.final.acks == 4 && !r.final.running
            && r.final.subscribers == map[]
            && |r.rounds| == 1 && r.rounds[0].value == d.value
            && r.rounds[0].recipients == multiset{1}
  {
    var cmds: seq<Command<()>> := [SubRemove(0), SubCallback, SubRemove(1), SubCallback];
    var one := map[1 := ()];
    assert d.subscribers - {0} == one;
    assert one - {1} == map[];
    var r := Broadcast(one, d.value);
    assert r.recipients == multiset{1} by {
      assert one.Keys == {1};
    }
    assert cmds[2..][1..] == cmds[3..];
    assert cmds[1..][1..] == cmds[2..];
    var f := d.(subscribers := map[], running := false, acks := 4);
    assert Controller(d.(subscribers := one, acks := 3), cmds[2..]) == Outcome(f, [], 1, true);
    assert Controller(d, cmds) == Outcome(f, [r], 3, true);
  }
}
