/** The server's inbox: one list of message slots, where an empty slot marks that the next
    entry of a second list, of operations, is due. Together they are one FIFO. Slots are
    list nodes that a pool keeps for reuse. */
module ServerQueue {

  datatype Slot = Marker | Filled(message: nat, connect: nat)

  /** What a client may post: a message on a connection, or an operation. */
  datatype Item = Message(message: nat, connect: nat) | Operation(operation: nat)

  datatype Lists = Lists(slots: seq<Slot>, operations: seq<nat>)

  function Markers(slots: seq<Slot>): nat {
    if slots == [] then 0 else (if slots[0] == Marker then 1 else 0) + Markers(slots[1..])
  }

  predicate Paired(q: Lists) { Markers(q.slots) == |q.operations| }

  /** The posted items that the two lists stand for, oldest first. */
  function Contents(q: Lists): seq<Item>
    requires Paired(q)
    decreases |q.slots|
  {
    if q.slots == [] then []
    else match q.slots[0]
      case Marker => [Operation(q.operations[0])] + Contents(Lists(q.slots[1..], q.operations[1..]))
      case Filled(m, c) => [Message(m, c)] + Contents(Lists(q.slots[1..], q.operations))
  }

  function SlotOf(item: Item): Slot {
    match item
    case Message(m, c) => Filled(m, c)
    case Operation(_) => Marker
  }

  function Posted(q: Lists, item: Item): Lists {
    Lists(q.slots + [SlotOf(item)], q.operations + if item.Operation? then [item.operation] else [])
  }

  /** Posting puts the item at the end, whatever mixture is there already. */
  lemma {:induction false} PostedLast(q: Lists, item: Item)
    requires Paired(q)
    ensures Paired(Posted(q, item)) && Contents(Posted(q, item)) == Contents(q) + [item]
    decreases |q.slots|
  {
    var p := Posted(q, item);
    if q.slots != [] {
      var rest := if q.slots[0] == Marker then q.operations[1..] else q.operations;
      PostedLast(Lists(q.slots[1..], rest), item);
      assert p.slots[1..] == q.slots[1..] + [SlotOf(item)];
      if q.slots[0] == Marker {
        assert p.operations[1..] == Posted(Lists(q.slots[1..], rest), item).operations;
      }
    }
  }

  /** A pool node is reused if there is one. */
  function Reused(pool: seq<Slot>): seq<Slot> { if pool == [] then [] else pool[1..] }

  class Queue {
    var slots: seq<Slot>
    var operations: seq<nat>

    ghost function View(): Lists
      reads this
    {
      Lists(slots, operations)
    }

    constructor ()
      ensures View() == Lists([], [])
    {
      slots, operations := [], [];
    }

    method PushBackMessage(message: nat, connect: nat, pool: seq<Slot>) returns (left: seq<Slot>)
      requires Paired(View())
      modifies this`slots
      ensures View() == Posted(old(View()), Message(message, connect))
      ensures Paired(View()) && Contents(View()) == Contents(old(View())) + [Message(message, connect)]
      ensures left == Reused(pool) && |slots| == old(|slots|) + 1
      ensures |left| + |slots| == |pool| + old(|slots|) + (if pool == [] then 1 else 0)
    {
      PostedLast(View(), Message(message, connect));
      left := PushBackSlot(Filled(message, connect), pool);
      assert View() == Posted(old(View()), Message(message, connect));
    }

    method PushBackOperation(operation: nat, pool: seq<Slot>) returns (left: seq<Slot>)
      requires Paired(View())
      modifies this
      ensures View() == Posted(old(View()), Operation(operation))
      ensures Paired(View()) && Contents(View()) == Contents(old(View())) + [Operation(operation)]
      ensures left == Reused(pool) && |slots| == old(|slots|) + 1
      ensures |left| + |slots| == |pool| + old(|slots|) + (if pool == [] then 1 else 0)
    {
      PostedLast(View(), Operation(operation));
      left := PushBackSlot(Marker, pool);
      operations := operations + [operation];
      assert View() == Posted(old(View()), Operation(operation));
    }

    /** A node from the front of the pool is spliced to the end and then overwritten. */
    method PushBackSlot(slot: Slot, pool: seq<Slot>) returns (left: seq<Slot>)
      modifies this`slots
      ensures slots == old(slots) + [slot] && left == Reused(pool)
      ensures |left| + |slots| == |pool| + old(|slots|) + (if pool == [] then 1 else 0)
    {
      left := pool;
      if pool == [] {
        slots := slots + [slot];
      } else {
        slots := slots + [pool[0]];
        left := pool[1..];
        slots := slots[|slots| - 1 := slot];
      }
    }

    method Swap(other: Queue)
      modifies this, other
      ensures View() == old(other.View()) && other.View() == old(View())
    {
      slots, other.slots := other.slots, slots;
      operations, other.operations := other.operations, operations;
    }

    /** Executes the whole queue in posting order. Every slot is emptied and every
        operation popped on the way; the nodes stay for recycling. */
    method Send() returns (executed: seq<Item>)
      requires Paired(View())
      modifies this
      ensures executed == Contents(old(View()))
      ensures |slots| == old(|slots|) && operations == []
      ensures forall i | 0 <= i < |slots| :: slots[i] == Marker
    {
      hide Contents, Markers;
      executed := [];
      ghost var all := Contents(View());
      SendStart(View());
      for i := 0 to |slots|
        invariant |slots| == old(|slots|) && Halfway(all, executed, View(), i)
      {
        SendTurn(all, executed, View(), i);
        match slots[i] {
          case Filled(m, c) =>
            executed := executed + [Message(m, c)];
            slots := slots[i := Marker];
          case Marker =>
            executed := executed + [Operation(operations[0])];
            operations := operations[1..];
        }
      }
      SendEnd(all, executed, View());
    }

    /** Gives all nodes to the front of the pool. */
    method Recycle(pool: seq<Slot>) returns (refilled: seq<Slot>)
      modifies this`slots
      ensures refilled == old(slots) + pool && slots == []
    {
      refilled := slots + pool;
      slots := [];
    }
  }

  /** Where the sending loop stands: the first `i` slots are done, and what was executed is
      followed by what is left. */
  ghost predicate Halfway(all: seq<Item>, executed: seq<Item>, q: Lists, i: nat) {
    && i <= |q.slots| && (forall k | 0 <= k < i :: q.slots[k] == Marker)
    && Paired(Lists(q.slots[i..], q.operations))
    && executed + Contents(Lists(q.slots[i..], q.operations)) == all
  }

  lemma SendStart(q: Lists)
    requires Paired(q)
    ensures Halfway(Contents(q), [], q, 0)
  {
    hide Contents, Markers;
    assert q.slots[0..] == q.slots;
  }

  lemma SendTurn(all: seq<Item>, executed: seq<Item>, q: Lists, i: nat)
    requires Halfway(all, executed, q, i) && i < |q.slots|
    ensures match q.slots[i]
            case Filled(m, c) =>
              Halfway(all, executed + [Message(m, c)], q.(slots := q.slots[i := Marker]), i + 1)
            case Marker =>
              q.operations != [] && Halfway(all, executed + [Operation(q.operations[0])], q.(operations := q.operations[1..]), i + 1)
  {
    var rest := Lists(q.slots[i..], q.operations);
    assert rest.slots[0] == q.slots[i] && rest.slots[1..] == q.slots[i + 1..];
    FirstContent(rest);
    hide Contents, Markers;
    match q.slots[i]
    case Filled(m, c) =>
      assert q.slots[i := Marker][i + 1..] == q.slots[i + 1..];
      AppendedThen(executed, Message(m, c), Contents(Lists(rest.slots[1..], q.operations)));
    case Marker =>
      AppendedThen(executed, Operation(q.operations[0]), Contents(Lists(rest.slots[1..], q.operations[1..])));
  }

  lemma FirstContent(q: Lists)
    requires Paired(q) && q.slots != []
    ensures match q.slots[0]
            case Filled(m, c) =>
              && Paired(Lists(q.slots[1..], q.operations))
              && Contents(q) == [Message(m, c)] + Contents(Lists(q.slots[1..], q.operations))
            case Marker =>
              && q.operations != [] && Paired(Lists(q.slots[1..], q.operations[1..]))
              && Contents(q) == [Operation(q.operations[0])] + Contents(Lists(q.slots[1..], q.operations[1..]))
  {}

  lemma AppendedThen(a: seq<Item>, x: Item, b: seq<Item>)
    ensures a + ([x] + b) == a + [x] + b
  {}

  lemma SendEnd(all: seq<Item>, executed: seq<Item>, q: Lists)
    requires Halfway(all, executed, q, |q.slots|)
    ensures executed == all && q.operations == [] && forall k | 0 <= k < |q.slots| :: q.slots[k] == Marker
  {
    assert q.slots[|q.slots|..] == [];
  }

  // ------------------------------------------------------------ posts against the loop

  /** The server between two of its atomic moments: clients post into the inbox while the
      loop works on the batch it swapped out, `next` slots of which are done. `made` counts
      the nodes that had to be allocated. */
  datatype Server = Server(inbox: Lists, batch: Lists, next: nat, working: bool,
                           pool: nat, made: nat, posted: seq<Item>, executed: seq<Item>)

  datatype Move = Post(item: Item) | SwapOut | SendOne | RecycleAll

  predicate CanMove(s: Server, m: Move) {
    match m
    case Post(_) => true
    case SwapOut => !s.working && s.inbox.slots != []
    case SendOne => s.working && s.next < |s.batch.slots|
    case RecycleAll => s.working && s.next == |s.batch.slots|
  }

  function Moved(s: Server, m: Move): Server
    requires CanMove(s, m) && (m.SendOne? && s.batch.slots[s.next] == Marker ==> s.batch.operations != [])
  {
    match m
    case Post(item) =>
      s.(inbox := Posted(s.inbox, item), posted := s.posted + [item],
         pool := if s.pool == 0 then 0 else s.pool - 1,
         made := if s.pool == 0 then s.made + 1 else s.made)
    case SwapOut => s.(inbox := Lists([], []), batch := s.inbox, next := 0, working := true)
    case SendOne =>
      (match s.batch.slots[s.next]
       case Filled(m, c) => s.(next := s.next + 1, executed := s.executed + [Message(m, c)],
                               batch := s.batch.(slots := s.batch.slots[s.next := Marker]))
       case Marker => s.(next := s.next + 1, executed := s.executed + [Operation(s.batch.operations[0])],
                         batch := s.batch.(operations := s.batch.operations[1..])))
    case RecycleAll =>
      s.(batch := Lists([], []), next := 0, working := false, pool := s.pool + |s.batch.slots|)
  }

  function Pending(s: Server): Lists
    requires s.next <= |s.batch.slots|
  {
    Lists(s.batch.slots[s.next..], s.batch.operations)
  }

  /** Executed, still in the batch, and in the inbox: together what was posted, in order;
      and no list node is ever lost or made twice. */
  predicate InOrder(s: Server) {
    && s.next <= |s.batch.slots| && Paired(Pending(s)) && Paired(s.inbox)
    && (!s.working ==> s.batch.slots == [])
    && s.executed + Contents(Pending(s)) + Contents(s.inbox) == s.posted
    && |s.inbox.slots| + |s.batch.slots| + s.pool == s.made
  }

  lemma MoveKeepsOrder(s: Server, m: Move)
    requires InOrder(s) && CanMove(s, m)
    ensures m.SendOne? && s.batch.slots[s.next] == Marker ==> s.batch.operations != []
    ensures InOrder(Moved(s, m))
  {
    match m
    case Post(item) =>
      PostedLast(s.inbox, item);
      assert s.executed + Contents(Pending(s)) + (Contents(s.inbox) + [item])
          == s.executed + Contents(Pending(s)) + Contents(s.inbox) + [item];
    case SwapOut => SwapKeepsOrder(s);
    case SendOne => SendKeepsOrder(s);
    case RecycleAll => RecycleKeepsOrder(s);
  }

  lemma SwapKeepsOrder(s: Server)
    requires InOrder(s) && CanMove(s, SwapOut)
    ensures InOrder(Moved(s, SwapOut))
  {
    assert s.inbox.slots[0..] == s.inbox.slots;
    assert Pending(Moved(s, SwapOut)) == s.inbox;
    assert Contents(Pending(s)) == [] && Contents(Lists([], [])) == [];
  }

  lemma SendKeepsOrder(s: Server)
    requires InOrder(s) && CanMove(s, SendOne)
    ensures s.batch.slots[s.next] == Marker ==> s.batch.operations != []
    ensures InOrder(Moved(s, SendOne))
  {
    var p := Pending(s);
    assert p.slots[0] == s.batch.slots[s.next] && p.slots[1..] == s.batch.slots[s.next + 1..];
    var s' := Moved(s, SendOne);
    assert Pending(s').slots == p.slots[1..];
    var head := Contents(p)[0];
    assert Contents(p) == [head] + Contents(Pending(s'));
    assert s.executed + Contents(p) == s.executed + [head] + Contents(Pending(s'));
  }

  lemma RecycleKeepsOrder(s: Server)
    requires InOrder(s) && CanMove(s, RecycleAll)
    ensures InOrder(Moved(s, RecycleAll))
  {
    assert Pending(s).slots == [] && Contents(Pending(s)) == [];
    assert Pending(Moved(s, RecycleAll)).slots == [];
  }

  const Empty: Server := Server(Lists([], []), Lists([], []), 0, false, 0, 0, [], [])

  predicate Runs(s: Server, moves: seq<Move>)
    requires InOrder(s)
    decreases |moves|
  {
    moves == [] ||
    (CanMove(s, moves[0]) && (MoveKeepsOrder(s, moves[0]); Runs(Moved(s, moves[0]), moves[1..])))
  }

  function RunAll(s: Server, moves: seq<Move>): (r: Server)
    requires InOrder(s) && Runs(s, moves)
    ensures InOrder(r)
    decreases |moves|
  {
    if moves == [] then s
    else
      MoveKeepsOrder(s, moves[0]);
      RunAll(Moved(s, moves[0]), moves[1..])
  }

  /** Main result: however posts interleave with the server loop, what has been executed
      is the beginning of what was posted, in order, and it is all of it once the inbox is
      empty and the loop idle. */
  lemma ExecutedIsPosted(moves: seq<Move>)
    requires Runs(Empty, moves)
    ensures var s := RunAll(Empty, moves);
            && s.executed <= s.posted
            && (!s.working && s.inbox.slots == [] ==> s.executed == s.posted && s.pool == s.made)
  {
    var s := RunAll(Empty, moves);
    assert s.executed <= s.executed + Contents(Pending(s)) + Contents(s.inbox);
  }

  /** How much the loop still has to do before it is idle with an empty inbox. */
  function Remaining(s: Server): nat
    requires s.next <= |s.batch.slots|
  {
    (if s.inbox.slots != [] then |s.inbox.slots| + 2 else 0)
    + (if s.working then |s.batch.slots| - s.next + 1 else 0)
  }

  lemma {:induction false} LoopFinishes(s: Server) returns (moves: seq<Move>)
    requires InOrder(s)
    ensures Runs(s, moves) && forall i | 0 <= i < |moves| :: !moves[i].Post?
    ensures var t := RunAll(s, moves); !t.working && t.inbox.slots == [] && t.posted == s.posted
    decreases Remaining(s)
  {
    hide Contents, Markers;
    moves := [];
    if s.working || s.inbox.slots != [] {
      var m := if !s.working then SwapOut else if s.next < |s.batch.slots| then SendOne else RecycleAll;
      MoveKeepsOrder(s, m);
      var rest := LoopFinishes(Moved(s, m));
      moves := [m] + rest;
      assert moves[1..] == rest;
    }
  }

  lemma {:induction false} RunsOn(s: Server, a: seq<Move>, b: seq<Move>)
    requires InOrder(s) && Runs(s, a) && Runs(RunAll(s, a), b)
    ensures Runs(s, a + b) && RunAll(s, a + b) == RunAll(RunAll(s, a), b)
    decreases |a|
  {
    hide InOrder, CanMove, Moved;
    if a == [] {
      assert a + b == b;
    } else {
      MoveKeepsOrder(s, a[0]);
      assert (a + b)[0] == a[0] && (a + b)[1..] == a[1..] + b;
      RunsOn(Moved(s, a[0]), a[1..], b);
    }
  }

  /** Main result: whatever was posted in whatever interleaving, the loop by itself can
      execute all of it and come to rest. */
  lemma AllCanBeExecuted(moves: seq<Move>) returns (more: seq<Move>)
    requires Runs(Empty, moves)
    ensures Runs(Empty, moves + more) && forall i | 0 <= i < |more| :: !more[i].Post?
    ensures var t := RunAll(Empty, moves + more);
            !t.working && t.inbox.slots == [] && t.executed == RunAll(Empty, moves).posted
  {
    more := LoopFinishes(RunAll(Empty, moves));
    RunsOn(Empty, moves, more);
    ExecutedIsPosted(moves + more);
  }
}
