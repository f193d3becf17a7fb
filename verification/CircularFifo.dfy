/** The fixed-size circular buffer tex_cache::fifo.  Callers may keep the raw
    slot number of an entry and write through it later, so the value model
    exposes slots as well as the sequence of contents. */
module CircularFifo {

  datatype Ring<T> = Ring(slots: seq<T>, tail: nat, num: nat) {
    predicate Ok() { num <= |slots| && if slots == [] then tail == 0 else tail < |slots| }

    // raw slot of the i-th oldest entry
    function Slot(i: nat): nat
      requires Ok() && i <= num
    {
      if slots == [] then 0 else if tail + i < |slots| then tail + i else tail + i - |slots|
    }

    // position, counted from the oldest entry, of a raw slot
    function Position(slot: nat): nat
      requires Ok() && slot < |slots|
    {
      if tail <= slot then slot - tail else slot + |slots| - tail
    }

    predicate Live(slot: nat)
      requires Ok()
    {
      slot < |slots| && Position(slot) < num
    }

    function Contents(): (c: seq<T>)
      requires Ok()
      ensures |c| == num
    {
      seq(num, i requires 0 <= i < num => slots[Slot(i)])
    }

    predicate Full() { num == |slots| }

    function Push(e: T): Ring<T>
      requires Ok() && !Full()
    {
      Ring(slots[Slot(num) := e], tail, num + 1)
    }

    function Pop(): Ring<T>
      requires Ok() && num > 0
    {
      Ring(slots, if tail + 1 < |slots| then tail + 1 else 0, num - 1)
    }

    // an assignment through a reference obtained from peek(slot)
    function Put(slot: nat, e: T): Ring<T>
      requires slot < |slots|
    {
      Ring(slots[slot := e], tail, num)
    }

    lemma SlotPosition(slot: nat)
      requires Ok() && Live(slot)
      ensures Slot(Position(slot)) == slot && Contents()[Position(slot)] == slots[slot]
    {
    }

    /** Pushing appends, and moves no entry to another slot. */
    lemma PushAppends(e: T)
      requires Ok() && !Full()
      ensures Push(e).Ok() && Push(e).Contents() == Contents() + [e]
      ensures Push(e).slots[Slot(num)] == e && !Live(Slot(num)) && Push(e).Position(Slot(num)) == num
      ensures forall s :: 0 <= s < |slots| ==> Push(e).Position(s) == Position(s)
      ensures forall s :: 0 <= s < |slots| && s != Slot(num) ==> Push(e).slots[s] == slots[s]
    {
      assert forall i :: 0 <= i < num ==> Slot(i) != Slot(num);
    }

    /** Popping removes the oldest entry, and moves no entry to another slot. */
    lemma PopRemovesOldest()
      requires Ok() && num > 0
      ensures Pop().Ok() && Contents()[0] == slots[tail] && Pop().Contents() == Contents()[1..]
      ensures forall s :: 0 <= s < |slots| && s != tail ==> Pop().Position(s) == Position(s) - 1
      ensures Live(tail) && Position(tail) == 0 && !Pop().Live(tail)
    {
      var p := Pop();
      assert forall i :: 0 <= i < num - 1 ==> p.Slot(i) == Slot(i + 1);
    }

    /** Writing through a live slot replaces exactly the entry at its position. */
    lemma PutReplaces(slot: nat, e: T)
      requires Ok() && Live(slot)
      ensures Put(slot, e).Ok() && Put(slot, e).Contents() == Contents()[Position(slot) := e]
    {
      assert forall i :: 0 <= i < num && i != Position(slot) ==> Slot(i) != slot;
    }
  }

  lemma NextIndex(i: nat, size: nat)
    requires i < size
    ensures (i + 1) % size == if i + 1 == size then 0 else i + 1
  {
  }

  class Fifo<T(0)> {
    const size: nat
    const data: array<T>
    var head: nat
    var tail: nat
    var num: nat

    ghost function State(): Ring<T>
      reads this, data
    {
      Ring(data[..], tail, num)
    }

    ghost predicate Valid()
      reads this, data
    {
      data.Length == size && State().Ok() && head == State().Slot(num)
    }

    constructor (size: nat)
      ensures Valid() && fresh(data) && this.size == size
      ensures State().num == 0 && State().Contents() == []
    {
      this.size := size;
      data := new T[size];
      head, tail, num := 0, 0, 0;
    }

    predicate Full()
      reads this
    {
      num == size
    }

    predicate Empty()
      reads this
    {
      num == 0
    }

    method Push(e: T) returns (slot: nat)
      requires Valid() && !Full()
      modifies this, data
      ensures Valid() && State() == old(State()).Push(e) && slot == old(State().Slot(num))
    {
      data[head] := e;
      slot := head;
      NextIndex(head, size);
      head := (head + 1) % size;
      num := num + 1;
    }

    method Pop() returns (e: T)
      requires Valid() && !Empty()
      modifies this
      ensures Valid() && State() == old(State()).Pop() && e == old(State()).Contents()[0]
    {
      e := data[tail];
      NextIndex(tail, size);
      tail := (tail + 1) % size;
      num := num - 1;
    }

    // peek(): the oldest entry
    function Peek(): T
      requires Valid() && !Empty()
      reads this, data
    {
      data[tail]
    }
  }
}
