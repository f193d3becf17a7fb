/** fifo_pipeline: a queue kept at a minimum length by bubbles, so that an item
    leaves no earlier than a fixed number of pops after it entered. */
module DelayFifo {
  import opened Options

  // the items from head to tail; None is a bubble, a NULL in the original
  datatype Pipe<T> = Pipe(items: seq<Option<T>>, min: nat, max: nat) {
    predicate Ok() { min <= |items| <= max && max > 0 }
  }

  // push: None where its assertion fails; a bubble at the tail is overwritten
  function Pushed<T>(p: Pipe<T>, data: Option<T>): Option<Pipe<T>> {
    var n := |p.items|;
    if n >= p.max then None
    else if n == 0 || p.items[n - 1].Some? || n < p.min then Some(p.(items := p.items + [data]))
    else Some(p.(items := p.items[n - 1 := data]))
  }

  // pop: the head, and a bubble at the tail if the pipe became too short
  function Popped<T>(p: Pipe<T>): Option<(Option<T>, Pipe<T>)> {
    if p.items == [] then Some((None, p))
    else
      var rest := p.(items := p.items[1..]);
      var q :- if p.min > 0 && |rest.items| < p.min then Pushed(rest, None) else Some(rest);
      Some((p.items[0], q))
  }

  function Bubbles<T>(n: nat): seq<Option<T>> { seq(n, _ => None) }

  // the constructor: None where an assertion fails
  function NewPipe<T>(min: nat, max: nat): Option<Pipe<T>> {
    if max == 0 || min > max then None else Some(Pipe(Bubbles(min), min, max))
  }

  function WithoutTailBubbles<T>(items: seq<Option<T>>, min: nat): seq<Option<T>> {
    if |items| > min && items[|items| - 1].None? then WithoutTailBubbles(items[..|items| - 1], min) else items
  }

  // set_min_length: None where an assertion fails
  function WithMin<T>(p: Pipe<T>, min: nat): Option<Pipe<T>> {
    if min > p.min then
      if |p.items| < min && min > p.max then None
      else Some(Pipe(p.items + Bubbles(if |p.items| < min then min - |p.items| else 0), min, p.max))
    else if min < p.min then
      if p.items == [] then None else Some(Pipe(WithoutTailBubbles(p.items, min), min, p.max))
    else Some(p)
  }

  // ---- the linked list ----

  class Node<T> {
    var data: Option<T>
    var next: Node?<T>

    constructor ()
      ensures next == null && data == None
    {
      data, next := None, null;
    }
  }

  class Pipeline<T> {
    var min: nat
    const max: nat
    var length: nat
    var head: Node?<T>
    var tail: Node?<T>
    ghost var nodes: seq<Node<T>>

    ghost predicate Valid()
      reads this, nodes
    {
      && length == |nodes|
      && (if nodes == [] then head == null && tail == null else head == nodes[0] && tail == nodes[|nodes| - 1])
      && (forall i, j :: 0 <= i < j < |nodes| ==> nodes[i] != nodes[j])
      && (forall i :: 0 <= i < |nodes| - 1 ==> nodes[i].next == nodes[i + 1])
      && (nodes != [] ==> nodes[|nodes| - 1].next == null)
    }

    ghost function Items(): seq<Option<T>>
      reads this, nodes
    {
      seq(|nodes|, i requires 0 <= i < |nodes| reads this, nodes => nodes[i].data)
    }

    ghost function State(): Pipe<T>
      reads this, nodes
    {
      Pipe(Items(), min, max)
    }

    constructor (minLen: nat, maxLen: nat)
      requires NewPipe<T>(minLen, maxLen).Some?
      ensures Valid() && fresh(nodes) && State() == NewPipe(minLen, maxLen).value
    {
      min, max, length := minLen, maxLen, 0;
      head, tail := null, null;
      nodes := [];
      new;
      var i := 0;
      while i < minLen
        invariant 0 <= i <= minLen && min == minLen && Valid() && fresh(nodes) && Items() == Bubbles(i)
      {
        Push(None);
        i := i + 1;
      }
    }

    method Push(data: Option<T>)
      requires Valid() && length < max
      modifies this`length, this`head, this`tail, this`nodes, nodes
      ensures Valid() && State() == Pushed(old(State()), data).value
      ensures fresh(set n | n in nodes && n !in old(nodes))
    {
      if head != null {
        if tail.data.Some? || length < min {
          var node := new Node<T>();
          tail.next := node;
          tail := node;
          nodes := nodes + [node];
          length := length + 1;
        }
      } else {
        tail := new Node<T>();
        head := tail;
        nodes := [tail];
        length := length + 1;
      }
      tail.next := null;
      tail.data := data;
    }

    method Pop() returns (data: Option<T>)
      requires Valid() && length <= max
      modifies this`length, this`head, this`tail, this`nodes, nodes
      ensures Valid() && Popped(old(State())) == Some((data, State()))
      ensures fresh(set n | n in nodes && n !in old(nodes))
    {
      if head != null {
        assert |nodes| > 1 ==> nodes[0] != nodes[|nodes| - 1];
        ghost var was := nodes;
        var next := head.next;
        data := head.data;
        if head == tail {
          assert next == null;
          tail := null;
        }
        head := next;
        nodes := nodes[1..];
        length := length - 1;
        assert Items() == old(Items())[1..];
        if length == 0 {
          assert head == null;
          tail := head;
        }
        if min != 0 && length < min {
          Push(None);
        }
      } else {
        data := None;
      }
    }

    // drop the tail, a bubble, of a list of several nodes
    method DropTail()
      requires Valid() && length > 1
      modifies this`length, this`tail, this`nodes, nodes
      ensures Valid() && Items() == old(Items())[..old(length) - 1]
      ensures fresh(set n | n in nodes && n !in old(nodes))
    {
      var iter := head;
      ghost var k := 0;
      while iter != null && iter.next != tail
        invariant 0 <= k < |nodes| - 1 && iter == nodes[k]
        decreases |nodes| - k
      {
        assert k + 1 < |nodes| - 1 by {
          assert nodes[k].next == nodes[k + 1];
        }
        iter := iter.next;
        k := k + 1;
      }
      assert nodes[k + 1] == nodes[|nodes| - 1];
      assert k + 1 == |nodes| - 1;
      tail := iter;
      nodes := nodes[..|nodes| - 1];
      tail.next := null;
      length := length - 1;
    }

    // set_min_length to more: bubbles until the length is enough
    method RaiseMin(newMin: nat)
      requires Valid() && length <= max && min < newMin && (length < newMin ==> newMin <= max)
      modifies this, nodes
      ensures Valid() && State() == WithMin(old(State()), newMin).value
    {
      ghost var was := Items();
      min := newMin;
      assert Items() == was;
      while length < min
        invariant Valid() && min == newMin && |was| <= length && fresh(set n | n in nodes && n !in old(nodes))
        invariant length <= max && (length <= min || length == |was|)
        invariant Items() == was + Bubbles(length - |was|)
        decreases newMin - length
      {
        ghost var before := Items();
        assert length == |before|;
        Push(None);
        assert Items() == before + [None];
        assert length == |Items()|;
      }
    }

    // set_min_length to less: drop tail bubbles while the length is above it
    method LowerMin(newMin: nat)
      requires Valid() && newMin < min <= length <= max
      modifies this, nodes
      ensures Valid() && State() == WithMin(old(State()), newMin).value
    {
      ghost var was := Items();
      min := newMin;
      assert Items() == was;
      while length > min && tail.data.None?
        invariant Valid() && min == newMin && min <= length <= |was| <= max
        invariant fresh(set n | n in nodes && n !in old(nodes))
        invariant WithoutTailBubbles(Items(), newMin) == WithoutTailBubbles(was, newMin)
        decreases length
      {
        if length == 1 {
          var _ := Pop();
        } else {
          DropTail();
        }
      }
    }

    method SetMinLength(newMin: nat)
      requires Valid() && State().Ok() && WithMin(State(), newMin).Some?
      modifies this, nodes
      ensures Valid() && State() == WithMin(old(State()), newMin).value
    {
      if newMin > min {
        RaiseMin(newMin);
      } else if newMin < min {
        LowerMin(newMin);
      }
    }
  }

  // ---- runs ----

  datatype Op<T> = PushOp(data: Option<T>) | PopOp

  // the items of a sequence without its bubbles
  function Somes<T>(items: seq<Option<T>>): seq<T> {
    if items == [] then []
    else Somes(items[..|items| - 1]) + if items[|items| - 1].Some? then [items[|items| - 1].value] else []
  }

  function Pops<T>(ops: seq<Op<T>>): nat {
    if ops == [] then 0 else Pops(ops[1..]) + if ops[0].PopOp? then 1 else 0
  }

  // the pushed data in order
  function Pushes<T>(ops: seq<Op<T>>): seq<Option<T>> {
    if ops == [] then [] else (if ops[0].PushOp? then [ops[0].data] else []) + Pushes(ops[1..])
  }

  // final pipe and the results of the pops; None if an assertion fails on the way
  function Run<T>(p: Pipe<T>, ops: seq<Op<T>>): Option<(Pipe<T>, seq<Option<T>>)>
    decreases ops
  {
    if ops == [] then Some((p, []))
    else
      match ops[0]
      case PushOp(data) =>
        var q :- Pushed(p, data);
        Run(q, ops[1..])
      case PopOp =>
        var r :- Popped(p);
        var rest :- Run(r.1, ops[1..]);
        Some((rest.0, [r.0] + rest.1))
  }

  lemma {:induction false} SomesOfSum<T>(a: seq<Option<T>>, b: seq<Option<T>>)
    ensures Somes(a + b) == Somes(a) + Somes(b)
  {
    if b == [] {
      assert a + b == a;
    } else {
      assert (a + b)[..|a + b| - 1] == a + b[..|b| - 1];
      SomesOfSum(a, b[..|b| - 1]);
    }
  }

  /** A push keeps the length within bounds, and loses no item: at most a bubble. */
  lemma PushKeepsItems<T>(p: Pipe<T>, data: Option<T>)
    requires p.Ok()
    ensures Pushed(p, data).Some? <==> |p.items| < p.max
    ensures Pushed(p, data).Some? ==>
      var q := Pushed(p, data).value;
      q.Ok() && q.min == p.min && q.max == p.max && Somes(q.items) == Somes(p.items) + Somes([data])
  {
    var n := |p.items|;
    if n < p.max {
      var q := Pushed(p, data).value;
      if |q.items| == n {
        assert p.items == p.items[..n - 1] + [p.items[n - 1]] && q.items == p.items[..n - 1] + [data];
        SomesOfSum(p.items[..n - 1], [p.items[n - 1]]);
        SomesOfSum(p.items[..n - 1], [data]);
      } else {
        SomesOfSum(p.items, [data]);
      }
    }
  }

  lemma PopKeepsItems<T>(p: Pipe<T>)
    requires p.Ok()
    ensures Popped(p).Some?
    ensures var (x, q) := Popped(p).value;
      q.Ok() && q.min == p.min && q.max == p.max && Somes([x]) + Somes(q.items) == Somes(p.items)
  {
    if p.items != [] {
      var rest := p.(items := p.items[1..]);
      assert p.items == [p.items[0]] + rest.items;
      SomesOfSum([p.items[0]], rest.items);
      if p.min > 0 && |rest.items| < p.min {
        SomesOfSum(rest.items, [None]);
      }
    }
  }

  lemma Prepended<T>(x: seq<T>, outs: seq<T>, left: seq<T>, had: seq<T>, given: seq<T>)
    requires outs + left == had + given
    ensures x + outs + left == x + had + given
  {
    assert x + outs + left == x + (outs + left) && x + had + given == x + (had + given);
  }

  /** Over any run the length stays between its bounds and the items leave in the
      order they were pushed, none lost and none duplicated. */
  lemma {:induction false} RunKeepsOrder<T>(p: Pipe<T>, ops: seq<Op<T>>)
    requires p.Ok() && Run(p, ops).Some?
    ensures var (q, outs) := Run(p, ops).value;
      && q.Ok() && q.min == p.min && q.max == p.max && |outs| == Pops(ops)
      && Somes(outs) + Somes(q.items) == Somes(p.items) + Somes(Pushes(ops))
    decreases ops
  {
    hide Pushed, Popped, Somes;
    if ops == [] {
      EmptyHasNone<T>();
    } else {
      match ops[0] {
        case PushOp(data) =>
          PushKeepsItems(p, data);
          RunKeepsOrder(Pushed(p, data).value, ops[1..]);
          SomesOfSum([data], Pushes(ops[1..]));
          assert Somes(p.items) + Somes([data]) + Somes(Pushes(ops[1..])) == Somes(p.items) + Somes(Pushes(ops));
        case PopOp =>
          PopKeepsItems(p);
          var (x, q) := Popped(p).value;
          RunKeepsOrder(q, ops[1..]);
          var (r, outs) := Run(q, ops[1..]).value;
          SomesOfSum([x], outs);
          assert [] + Pushes(ops[1..]) == Pushes(ops[1..]);
          Prepended(Somes([x]), Somes(outs), Somes(r.items), Somes(q.items), Somes(Pushes(ops[1..])));
      }
    }
  }

  lemma EmptyHasNone<T>()
    ensures Somes<T>([]) == []
  {
  }

  // a position whose content no push can change: an item, or not the tail
  predicate Settled<T>(p: Pipe<T>, j: nat) { j < |p.items| && (p.items[j].Some? || j + 1 < |p.items|) }

  lemma SettledIsInside<T>(p: Pipe<T>, j: nat)
    requires Settled(p, j)
    ensures j < |p.items|
  {
  }

  lemma PushKeepsSettled<T>(p: Pipe<T>, data: Option<T>, j: nat)
    requires p.Ok() && Pushed(p, data).Some? && Settled(p, j)
    ensures Settled(Pushed(p, data).value, j) && Pushed(p, data).value.items[j] == p.items[j]
  {
  }

  lemma PopShiftsSettled<T>(p: Pipe<T>, j: nat)
    requires p.Ok() && Settled(p, j)
    ensures Popped(p).Some?
    ensures j == 0 ==> Popped(p).value.0 == p.items[0]
    ensures j > 0 ==> Settled(Popped(p).value.1, j - 1) && Popped(p).value.1.items[j - 1] == p.items[j]
  {
  }

  /** Each pop moves every settled position one place towards the head. */
  lemma {:induction false} ItemsMoveOnePlaceAPop<T>(p: Pipe<T>, ops: seq<Op<T>>, j: nat)
    requires p.Ok() && Run(p, ops).Some? && Settled(p, j)
    ensures var ((q, outs), n) := (Run(p, ops).value, Pops(ops));
      |outs| == n && (if j < n then outs[j] == p.items[j] else j - n < |q.items| && q.items[j - n] == p.items[j])
    decreases ops
  {
    hide Pushed, Popped, Somes, Pushes, Settled;
    if ops == [] {
      SettledIsInside(p, j);
    } else {
      match ops[0] {
        case PushOp(data) =>
          PushKeepsItems(p, data);
          PushKeepsSettled(p, data, j);
          ItemsMoveOnePlaceAPop(Pushed(p, data).value, ops[1..], j);
        case PopOp =>
          PopKeepsItems(p);
          var q := Popped(p).value.1;
          RunKeepsOrder(q, ops[1..]);
          PopShiftsSettled(p, j);
          if j > 0 {
            ItemsMoveOnePlaceAPop(q, ops[1..], j - 1);
          }
      }
    }
  }

  /** An item leaves by a fixed pop after its push, never before the min-th: it
      enters at a position of at least min - 1, and however pushes and pops are then
      mixed it is still inside before the pop of that number and is its result. */
  lemma ItemsAreDelayed<T>(p: Pipe<T>, x: T, ops: seq<Op<T>>)
    requires p.Ok() && Pushed(p, Some(x)).Some? && Run(Pushed(p, Some(x)).value, ops).Some?
    ensures var q := Pushed(p, Some(x)).value;
      var ((r, outs), n, place) := (Run(q, ops).value, Pops(ops), |q.items| - 1);
      && place + 1 >= p.min && |outs| == n
      && (n <= place ==> place - n < |r.items| && r.items[place - n] == Some(x) && outs == q.items[..n])
      && (n > place ==> outs[..place] == q.items[..place] && outs[place] == Some(x))
  {
    PushKeepsItems(p, Some(x));
    var q := Pushed(p, Some(x)).value;
    var place := |q.items| - 1;
    ItemsMoveOnePlaceAPop(q, ops, place);
    forall j | 0 <= j < place && j < Pops(ops)
      ensures Run(q, ops).value.1[j] == q.items[j]
    {
      ItemsMoveOnePlaceAPop(q, ops, j);
    }
  }

  lemma {:induction false} TailBubblesOnly<T>(items: seq<Option<T>>, min: nat)
    requires |items| >= min
    ensures var rest := WithoutTailBubbles(items, min);
      && min <= |rest| <= |items| && items == rest + Bubbles(|items| - |rest|)
      && (|rest| == min || rest[|rest| - 1].Some?)
      && Somes(rest) == Somes(items)
  {
    if |items| > min && items[|items| - 1].None? {
      TailBubblesOnly(items[..|items| - 1], min);
    }
  }

  lemma {:induction false} BubblesAreNoItems<T>(items: seq<Option<T>>, n: nat)
    ensures Somes(items + Bubbles(n)) == Somes(items)
  {
    if n == 0 {
      assert items + Bubbles(0) == items;
    } else {
      assert (items + Bubbles(n))[..|items| + n - 1] == items + Bubbles(n - 1);
      BubblesAreNoItems(items, n - 1);
    }
  }

  /** Changing the minimum fails exactly when it would exceed the maximum; it adds
      or removes bubbles at the tail only, and the length meets the new minimum. */
  lemma WithMinKeepsItems<T>(p: Pipe<T>, min: nat)
    requires p.Ok()
    ensures WithMin(p, min).Some? <==> min <= p.max
    ensures min <= p.max ==>
      var q := WithMin(p, min).value;
      q.Ok() && q.min == min && q.max == p.max && Somes(q.items) == Somes(p.items)
  {
    if min > p.min && min <= p.max {
      BubblesAreNoItems(p.items, if |p.items| < min then min - |p.items| else 0);
    } else if min < p.min {
      TailBubblesOnly(p.items, min);
    }
  }
}
