/** The three sequential scenarios of writable_test.go, replayed on the model of the
    cell: one subscriber, a few `Set`/`Update` calls, the unsubscriber, and a last `Set`
    that must reach nobody. Callbacks are the unit value: only their ids matter. */
module WritableScenarios {
  import opened Notify
  import opened Values
  import opened Writable

  /** What a subscriber receives over a run is what it receives from the first call
      followed by what it receives from the rest. */
  lemma ReceivedFromHead<D, C>(w: Cell<D, C>, ops: seq<Op<D, C>>, k: int)
    requires |ops| > 0
    ensures var first := Perform(w, ops[0]);
            ReceivedBy(Run(w, ops).rounds, k)
              == ReceivedBy(first.rounds, k) + ReceivedBy(Run(first.cell, ops[1..]).rounds, k)
  {
    var first := Perform(w, ops[0]);
    ReceivedByAppend(first.rounds, Run(first.cell, ops[1..]).rounds, k);
  }

  /** The updater `i * 2` of the integer scenario. */
  function Double(x: Value<int>): Value<int>
  {
    match x
    case Plain(n) => Plain(2 * n)
    case Pointer(_) => x
  }

  /** Integer cell: the subscriber receives 2 and then 4, and nothing after
      unsubscribing; the cell ends holding 10. */
  lemma IntScenario()
    ensures var r := Run(New<int, ()>(Plain(0)),
                         [SubscribeOp(()), SetOp(Plain(2)), UpdateOp(Double), UnsubscribeOp(0), SetOp(Plain(10))]);
            && r.issued == [0]
            && ReceivedBy(r.rounds, 0) == [Plain(2), Plain(4)]
            && r.cell.value == Plain(10)
  {
    var ops: seq<Op<int, ()>> :=
      [SubscribeOp(()), SetOp(Plain(2)), UpdateOp(Double), UnsubscribeOp(0), SetOp(Plain(10))];
    var w0 := New<int, ()>(Plain(0));
    var t0 := Perform(w0, ops[0]);
    var t1 := Perform(t0.cell, ops[1]);
    var t2 := Perform(t1.cell, ops[2]);
    var t3 := Perform(t2.cell, ops[3]);
    var t4 := Perform(t3.cell, ops[4]);
    assert ops[5..] == [];
    assert ops[4..][1..] == ops[5..];
    assert ops[3..][1..] == ops[4..];
    assert ops[2..][1..] == ops[3..];
    assert ops[1..][1..] == ops[2..];
    assert Run(t4.cell, ops[5..]) == Trace(t4.cell, [], []);
    assert Run(t3.cell, ops[4..]).rounds == t4.rounds;
    assert Run(t2.cell, ops[3..]).rounds == t4.rounds;
    assert Run(t1.cell, ops[2..]).rounds == t2.rounds + t4.rounds;
    assert Run(t0.cell, ops[1..]).rounds == t1.rounds + (t2.rounds + t4.rounds);
    assert Run(w0, ops).rounds == t1.rounds + (t2.rounds + t4.rounds);
    assert 0 in t1.cell.subscribers && 0 !in t3.cell.subscribers;
    assert ReceivedBy(t1.rounds, 0) == [Plain(2)];
    assert ReceivedBy(t2.rounds, 0) == [Plain(4)];
    assert ReceivedBy(t4.rounds, 0) == [];
    ReceivedByAppend(t2.rounds, t4.rounds, 0);
    ReceivedByAppend(t1.rounds, t2.rounds + t4.rounds, 0);
  }

  /** The struct `{value, word}` as a pair. */
  type Record = (int, string)

  function SetValue(n: int): Value<Record> -> Value<Record>
  {
    (x: Value<Record>) => if x.Plain? then Plain((n, x.data.1)) else x
  }

  function SetWord(w: string): Value<Record> -> Value<Record>
  {
    (x: Value<Record>) => if x.Plain? then Plain((x.data.0, w)) else x
  }

  function SetBoth(n: int, w: string): Value<Record> -> Value<Record>
  {
    (x: Value<Record>) => if x.Plain? then Plain((n, w)) else x
  }

  /** Struct cell: an `Update` that rebuilds the value already held delivers nothing;
      the other three changes are each delivered once. */
  lemma StructScenario()
    ensures var r := Run(New<Record, ()>(Plain((0, "test"))),
                         [SubscribeOp(()), SetOp(Plain((2, "first"))), UpdateOp(SetBoth(2, "first")),
                          UpdateOp(SetValue(4)), UpdateOp(SetWord("second")), UnsubscribeOp(0),
                          SetOp(Plain((10, "third")))]);
            ReceivedBy(r.rounds, 0) == [Plain((2, "first")), Plain((4, "first")), Plain((4, "second"))]
  {
    var ops: seq<Op<Record, ()>> :=
      [SubscribeOp(()), SetOp(Plain((2, "first"))), UpdateOp(SetBoth(2, "first")),
       UpdateOp(SetValue(4)), UpdateOp(SetWord("second")), UnsubscribeOp(0),
       SetOp(Plain((10, "third")))];
    var w0 := New<Record, ()>(Plain((0, "test")));
    var t0 := Perform(w0, ops[0]);
    var t1 := Perform(t0.cell, ops[1]);
    var t2 := Perform(t1.cell, ops[2]);
    var t3 := Perform(t2.cell, ops[3]);
    var t4 := Perform(t3.cell, ops[4]);
    var t5 := Perform(t4.cell, ops[5]);
    var t6 := Perform(t5.cell, ops[6]);
    assert ops[7..] == [];
    assert ops[6..][1..] == ops[7..];
    assert ops[5..][1..] == ops[6..];
    assert ops[4..][1..] == ops[5..];
    assert ops[3..][1..] == ops[4..];
    assert ops[2..][1..] == ops[3..];
    assert ops[1..][1..] == ops[2..];
    ReceivedFromHead(t5.cell, ops[6..], 0);
    ReceivedFromHead(t4.cell, ops[5..], 0);
    ReceivedFromHead(t3.cell, ops[4..], 0);
    ReceivedFromHead(t2.cell, ops[3..], 0);
    ReceivedFromHead(t1.cell, ops[2..], 0);
    ReceivedFromHead(t0.cell, ops[1..], 0);
    ReceivedFromHead(w0, ops, 0);
    assert 0 in t4.cell.subscribers && 0 !in t5.cell.subscribers;
    assert ReceivedBy(t0.rounds, 0) == [];
    assert ReceivedBy(t1.rounds, 0) == [Plain((2, "first"))];
    assert ReceivedBy(t2.rounds, 0) == [];
    assert ReceivedBy(t3.rounds, 0) == [Plain((4, "first"))];
    assert ReceivedBy(t4.rounds, 0) == [Plain((4, "second"))];
    assert ReceivedBy(t5.rounds, 0) == [];
    assert ReceivedBy(t6.rounds, 0) == [];
  }

  /** The identity updater: hands the same pointer back after mutating what it points to. */
  function SamePointer(x: Value<int>): Value<int>
  {
    x
  }

  /** Pointer cell: every `Update` delivers, although it hands back the pointer the cell
      already holds. */
  lemma PointerScenario()
    ensures var r := Run(New<int, ()>(Pointer(1)),
                         [SubscribeOp(()), SetOp(Pointer(2)), UpdateOp(SamePointer), UpdateOp(SamePointer),
                          UpdateOp(SamePointer), UnsubscribeOp(0), SetOp(Pointer(3))]);
            ReceivedBy(r.rounds, 0) == [Pointer(2), Pointer(2), Pointer(2), Pointer(2)]
  {
    var ops: seq<Op<int, ()>> :=
      [SubscribeOp(()), SetOp(Pointer(2)), UpdateOp(SamePointer), UpdateOp(SamePointer),
       UpdateOp(SamePointer), UnsubscribeOp(0), SetOp(Pointer(3))];
    var w0 := New<int, ()>(Pointer(1));
    var t0 := Perform(w0, ops[0]);
    var t1 := Perform(t0.cell, ops[1]);
    assert t1.cell == Cell(1, Pointer(2), map[0 := ()]);
    assert Repeat<Op<int, ()>>(UpdateOp(SamePointer), 3) == [UpdateOp(SamePointer), UpdateOp(SamePointer), UpdateOp(SamePointer)];
    assert ops[2..] == Repeat<Op<int, ()>>(UpdateOp(SamePointer), 3) + [UnsubscribeOp(0)] + [SetOp(Pointer(3))];
    PointerUpdates(t1.cell, 3, [SetOp(Pointer(3))]);
    assert Repeat<Value<int>>(Pointer(2), 3) == [Pointer(2), Pointer(2), Pointer(2)];
    assert ops[1..][1..] == ops[2..];
    ReceivedFromHead(t0.cell, ops[1..], 0);
    ReceivedFromHead(w0, ops, 0);
    assert ReceivedBy(t0.rounds, 0) == [];
    assert ReceivedBy(t1.rounds, 0) == [Pointer(2)];
  }

  /** `n` updates that hand back the pointer already held each deliver it, and after the
      unsubscriber nothing more arrives. */
  lemma {:induction false} PointerUpdates<C>(w: Cell<int, C>, n: nat, later: seq<Op<int, C>>)
    requires w.value.Pointer? && 0 in w.subscribers && Valid(w)
    ensures ReceivedBy(Run(w, Repeat(UpdateOp(SamePointer), n) + [UnsubscribeOp(0)] + later).rounds, 0)
            == Repeat(w.value, n)
    decreases n
  {
    var ops := Repeat(UpdateOp(SamePointer), n) + [UnsubscribeOp(0)] + later;
    if n == 0 {
      assert ops == [UnsubscribeOp(0)] + later;
      assert ops[0] == UnsubscribeOp(0) && ops[1..] == later;
      UnsubscribeIsFinal(w, 0, later);
      ReceivedFromHead(w, ops, 0);
    } else {
      assert ops[0] == UpdateOp(SamePointer);
      assert ops[1..] == Repeat(UpdateOp(SamePointer), n - 1) + [UnsubscribeOp(0)] + later;
      var first := Perform(w, ops[0]);
      assert first.cell == w;
      assert ReceivedBy(first.rounds, 0) == [w.value];
      PointerUpdates(w, n - 1, later);
      ReceivedFromHead(w, ops, 0);
    }
  }
}
