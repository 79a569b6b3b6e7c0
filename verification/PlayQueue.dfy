/** The desktop client's play queue: a singly linked list of heap-allocated audio blocks, pushed by the decoder,
    popped and then freed by the player thread, and cleared when the user barges in. The mutex makes each
    method one atomic step; a popped node belongs to the player until it is released. */
module PlayQueue {
  import opened Bytes

  /** A node owns its block: both are allocated by queue_push, and freed together. */
  class Node {
    const data: seq<byte>
    var next: Node?

    constructor (data: seq<byte>)
      ensures this.data == data && next == null
    {
      this.data := data;
      next := null;
    }
  }

  /** `q` is the list from `head`, linked by `next` and ending in null, with `tail` its last node. */
  ghost predicate IsList(head: Node?, tail: Node?, q: seq<Node>)
    reads q
  {
    && head == Front(q)
    && tail == (if q == [] then null else q[|q| - 1])
    && (forall i {:trigger q[i]} :: 0 <= i < |q| ==> q[i].next == if i + 1 < |q| then q[i + 1] else null)
  }

  ghost function Front(q: seq<Node>): Node? {
    if q == [] then null else q[0]
  }

  lemma ListPop(head: Node?, tail: Node?, q: seq<Node>)
    requires IsList(head, tail, q) && head != null
    ensures q != [] && IsList(head.next, if head.next == null then null else tail, q[1..])
  {
    assert head == q[0];
    assert forall i {:trigger q[1..][i]} :: 0 <= i < |q[1..]| ==> q[1..][i] == q[i + 1];
  }

  // ------------------------------------------------------------------------------------------------
  // Who owns what, and in which order

  /** The queue in order, what the player popped and has not freed, what is allocated, what was freed, every
      block ever queued, how many of them have left the queue, and the positions of those the player got. */
  datatype Books = Books(nodes: seq<Node>, held: seq<Node>, live: set<Node>, freed: set<Node>,
                         pushed: seq<seq<byte>>, gone: nat, popped: seq<nat>)

  ghost predicate Distinct(q: seq<Node>) {
    forall i, j :: 0 <= i < j < |q| ==> q[i] != q[j]
  }

  ghost function NodesOf(q: seq<Node>): set<Node> {
    set n | n in q
  }

  /** What is allocated is `q`, each node once, and nothing freed is. */
  ghost predicate Ledger(q: seq<Node>, live: set<Node>, freed: set<Node>) {
    Distinct(q) && live == NodesOf(q) && live !! freed
  }

  /** The nodes hold these blocks. */
  ghost predicate Hold(q: seq<Node>, blocks: seq<seq<byte>>) {
    |q| == |blocks| && forall i {:trigger q[i]} :: 0 <= i < |q| ==> q[i].data == blocks[i]
  }

  /** Positions in the order of pushing, strictly increasing and all before `bound`. */
  ghost predicate InOrder(positions: seq<nat>, bound: nat) {
    && (forall i :: 0 <= i < |positions| ==> positions[i] < bound)
    && (forall i, j :: 0 <= i < j < |positions| ==> positions[i] < positions[j])
  }

  /** Every allocated node is the player's or in the queue, never both, and not freed; the queue is what was
      pushed and has not left; and the player got blocks in the order of pushing. */
  ghost predicate Balanced(b: Books) {
    && Ledger(b.held + b.nodes, b.live, b.freed)
    && b.gone <= |b.pushed| && Hold(b.nodes, b.pushed[b.gone..])
    && InOrder(b.popped, b.gone)
  }

  ghost function AfterPush(b: Books, n: Node): Books {
    b.(nodes := b.nodes + [n], live := b.live + {n}, pushed := b.pushed + [n.data])
  }

  /** The front of the queue, if there is one, goes to the player. */
  ghost function AfterPop(b: Books): Books {
    if b.nodes == [] then b
    else b.(nodes := b.nodes[1..], held := b.held + [b.nodes[0]], gone := b.gone + 1, popped := b.popped + [b.gone])
  }

  /** free: only what is allocated may be freed, which rules out freeing twice. */
  ghost function AfterFree(b: Books, n: Node): Books
    requires n in b.live
  {
    b.(live := b.live - {n}, freed := b.freed + {n})
  }

  /** The player frees the first block it holds. */
  ghost function AfterRelease(b: Books): Books
    requires b.held != [] && b.held[0] in b.live
  {
    AfterFree(b, b.held[0]).(held := b.held[1..])
  }

  /** The front of the queue is freed without being played. */
  ghost function AfterDiscard(b: Books): Books
    requires b.nodes != [] && b.nodes[0] in b.live
  {
    AfterFree(b, b.nodes[0]).(nodes := b.nodes[1..], gone := b.gone + 1)
  }

  /** A new node joins the ledger. */
  lemma Taken(q: seq<Node>, n: Node, live: set<Node>, freed: set<Node>)
    requires Ledger(q, live, freed) && n !in live + freed
    ensures Ledger(q + [n], live + {n}, freed)
  {
    assert forall i :: 0 <= i < |q| ==> q[i] in live;
    assert forall m :: m in q + [n] <==> m in q || m == n;
  }

  /** A freed node leaves it; the rest stays in order. */
  lemma Dropped(q: seq<Node>, k: nat, live: set<Node>, freed: set<Node>)
    requires Ledger(q, live, freed) && k < |q|
    ensures q[k] in live && Ledger(q[..k] + q[k + 1..], live - {q[k]}, freed + {q[k]})
  {
    var r := q[..k] + q[k + 1..];
    assert forall i :: 0 <= i < |r| ==> r[i] == q[if i < k then i else i + 1];
    forall n | n in q && n != q[k] ensures n in r {
      var i :| 0 <= i < |q| && q[i] == n;
      assert r[if i < k then i else i - 1] == n;
    }
  }

  lemma BalancedPush(b: Books, n: Node)
    requires Balanced(b) && n !in b.live + b.freed
    ensures Balanced(AfterPush(b, n))
  {
    hide Ledger, InOrder;
    Taken(b.held + b.nodes, n, b.live, b.freed);
    assert b.held + (b.nodes + [n]) == (b.held + b.nodes) + [n];
    assert (b.pushed + [n.data])[b.gone..] == b.pushed[b.gone..] + [n.data];
  }

  /** Whoever gets the front gets the next block that was pushed, and ownership only changes hands. */
  lemma BalancedPop(b: Books)
    requires Balanced(b) && b.nodes != []
    ensures Balanced(AfterPop(b)) && b.gone < |b.pushed| && b.nodes[0].data == b.pushed[b.gone]
  {
    hide Ledger;
    assert b.nodes == [b.nodes[0]] + b.nodes[1..];
    assert (b.held + [b.nodes[0]]) + b.nodes[1..] == b.held + b.nodes;
    assert forall i {:trigger b.nodes[1..][i]} :: 0 <= i < |b.nodes[1..]| ==> b.nodes[1..][i] == b.nodes[i + 1];
    assert b.pushed[b.gone + 1..] == b.pushed[b.gone..][1..];
  }

  lemma BalancedRelease(b: Books)
    requires Balanced(b) && b.held != []
    ensures b.held[0] in b.live && Balanced(AfterRelease(b))
  {
    hide Ledger, Hold, InOrder;
    var all := b.held + b.nodes;
    Dropped(all, 0, b.live, b.freed);
    assert all[..0] + all[1..] == b.held[1..] + b.nodes;
  }

  lemma BalancedDiscard(b: Books)
    requires Balanced(b) && b.nodes != []
    ensures b.nodes[0] in b.live && Balanced(AfterDiscard(b))
    ensures AfterDiscard(b).freed + NodesOf(b.nodes[1..]) == b.freed + NodesOf(b.nodes)
  {
    hide Ledger;
    var all, k := b.held + b.nodes, |b.held|;
    Dropped(all, k, b.live, b.freed);
    assert all[..k] + all[k + 1..] == b.held + b.nodes[1..];
    BalancedPop(b);
    assert b.nodes == [b.nodes[0]] + b.nodes[1..];
  }

  lemma BalancedEmpty(b: Books)
    requires Balanced(b) && b.nodes == []
    ensures b.gone == |b.pushed| && b.live == NodesOf(b.held)
  {
    assert b.held + [] == b.held;
  }

  // ------------------------------------------------------------------------------------------------
  // The queue

  class PlayQueue {
    var head: Node?
    var tail: Node?
    var count: int
    ghost var books: Books

    ghost predicate Linked()
      reads this, books.nodes
    {
      IsList(head, tail, books.nodes) && count == |books.nodes|
    }

    ghost predicate Valid()
      reads this, books.nodes
    {
      Linked() && Balanced(books)
    }

    // queue_init
    constructor ()
      ensures Valid() && books == Books([], [], {}, {}, [], 0, [])
    {
      head, tail, count := null, null, 0;
      books := Books([], [], {}, {}, [], 0, []);
    }

    // queue_push; `noNode` and `noData` say which malloc fails
    method Push(data: seq<byte>, noNode: bool, noData: bool) returns (ghost node: Node?)
      requires Valid()
      modifies this, books.nodes
      ensures Valid()
      ensures node == null <==> noNode || noData
      ensures node == null ==> books == old(books)
      ensures node != null ==> fresh(node) && node.data == data && books == AfterPush(old(books), node)
    {
      hide Balanced;
      node := null;
      if noNode || noData {
        return;
      }
      var n := new Node(data);
      BalancedPush(books, n);
      if tail != null {
        tail.next := n;
      } else {
        head := n;
      }
      tail := n;
      count := count + 1;
      books := AfterPush(books, n);
      node := n;
    }

    // queue_pop, after any waiting
    method Pop() returns (node: Node?)
      requires Valid()
      modifies this
      ensures Valid() && books == AfterPop(old(books)) && node == Front(old(books).nodes)
      ensures node != null ==> old(books).gone < |books.pushed| && node.data == books.pushed[old(books).gone]
    {
      hide Balanced;
      node := head;
      if node != null {
        ListPop(head, tail, books.nodes);
        BalancedPop(books);
        head := node.next;
        if head == null {
          tail := null;
        }
        count := count - 1;
        books := AfterPop(books);
      }
    }

    // the player thread, done with the block it got
    method Release(node: Node)
      requires Valid() && books.held != [] && node == books.held[0]
      modifies this`books
      ensures Valid() && node in old(books).live
      ensures books == AfterRelease(old(books))
    {
      hide Balanced, IsList;
      BalancedRelease(books);
      books := AfterRelease(books);
    }

    // queue_clear, and the same loop in queue_destroy; what the player holds stays its own
    method Clear()
      requires Valid()
      modifies this
      ensures Valid() && books.nodes == [] && books.held == old(books).held && books.popped == old(books).popped
      ensures books.pushed == old(books).pushed && books.gone == |books.pushed|
      ensures books.freed == old(books).freed + NodesOf(old(books).nodes) && books.live == NodesOf(books.held)
    {
      hide Balanced;
      var node := head;
      while node != null
        invariant IsList(node, if node == null then null else tail, books.nodes) && Balanced(books)
        invariant books.freed + NodesOf(books.nodes) == old(books).freed + NodesOf(old(books).nodes)
        invariant books.held == old(books).held && books.popped == old(books).popped
        invariant books.pushed == old(books).pushed
        decreases |books.nodes|
      {
        ListPop(node, tail, books.nodes);
        BalancedDiscard(books);
        var next := node.next;
        books := AfterDiscard(books);
        node := next;
      }
      BalancedEmpty(books);
      head, tail, count := null, null, 0;
    }
  }

  // ------------------------------------------------------------------------------------------------
  // Whole runs

  /** What happens to the queue, in whatever order the threads get the mutex. */
  datatype Op = Add(data: seq<byte>, noNode: bool, noData: bool) | Take | GiveBack | Empty

  /** Blocks alone: those waiting, those the player holds, and all it ever got. */
  datatype Player = Player(waiting: seq<seq<byte>>, held: seq<seq<byte>>, played: seq<seq<byte>>)

  function PlayerStep(p: Player, op: Op): Player {
    match op
    case Add(data, noNode, noData) => if noNode || noData then p else p.(waiting := p.waiting + [data])
    case Take =>
      if p.waiting == [] then p
      else Player(p.waiting[1..], p.held + [p.waiting[0]], p.played + [p.waiting[0]])
    case GiveBack => if p.held == [] then p else p.(held := p.held[1..])
    case Empty => p.(waiting := [])
  }

  function PlayerRun(ops: seq<Op>): Player {
    if ops == [] then Player([], [], []) else PlayerStep(PlayerRun(ops[..|ops| - 1]), ops[|ops| - 1])
  }

  /** The books say the same. */
  ghost predicate Tells(b: Books, p: Player) {
    && Hold(b.nodes, p.waiting) && Hold(b.held, p.held)
    && |b.popped| == |p.played|
    && (forall i :: 0 <= i < |b.popped| ==> b.popped[i] < |b.pushed| && b.pushed[b.popped[i]] == p.played[i])
  }

  lemma TellsPush(b: Books, p: Player, n: Node)
    requires Tells(b, p)
    ensures Tells(AfterPush(b, n), p.(waiting := p.waiting + [n.data]))
  {
  }

  lemma TellsPop(b: Books, p: Player)
    requires Tells(b, p) && Balanced(b)
    ensures Tells(AfterPop(b), PlayerStep(p, Take))
  {
    hide Ledger, InOrder, AfterPop, Balanced;
    if b.nodes != [] {
      HoldPop(b.nodes, p.waiting);
      HoldPush(b.held, p.held, b.nodes[0]);
      NextBlock(b);
      PoppedBooks(b);
    } else {
      PoppedNothing(b);
    }
  }

  lemma NextBlock(b: Books)
    requires Balanced(b) && b.nodes != []
    ensures b.gone < |b.pushed| && b.nodes[0].data == b.pushed[b.gone]
  {
    BalancedPop(b);
  }

  lemma PoppedBooks(b: Books)
    requires b.nodes != []
    ensures AfterPop(b) == b.(nodes := b.nodes[1..], held := b.held + [b.nodes[0]], gone := b.gone + 1,
                              popped := b.popped + [b.gone])
  {
  }

  lemma PoppedNothing(b: Books)
    requires b.nodes == []
    ensures AfterPop(b) == b
  {
  }

  lemma HoldPop(q: seq<Node>, blocks: seq<seq<byte>>)
    requires Hold(q, blocks) && q != []
    ensures blocks != [] && q[0].data == blocks[0] && Hold(q[1..], blocks[1..])
  {
    assert forall i {:trigger q[1..][i]} :: 0 <= i < |q[1..]| ==> q[1..][i] == q[i + 1];
  }

  lemma HoldPush(q: seq<Node>, blocks: seq<seq<byte>>, n: Node)
    requires Hold(q, blocks)
    ensures Hold(q + [n], blocks + [n.data])
  {
  }

  lemma TellsRelease(b: Books, p: Player)
    requires Tells(b, p) && b.held != [] && b.held[0] in b.live
    ensures p.held != [] && Tells(AfterRelease(b), p.(held := p.held[1..]))
  {
    HoldPop(b.held, p.held);
  }

  lemma TellsClear(b: Books, p: Player, c: Books)
    requires Tells(b, p) && c.nodes == [] && c.held == b.held && c.popped == b.popped && c.pushed == b.pushed
    ensures Tells(c, p.(waiting := []))
  {
  }

  lemma TellsNothing()
    ensures Tells(Books([], [], {}, {}, [], 0, []), Player([], [], []))
  {
  }

  lemma HoldsSome(b: Books, p: Player)
    requires Tells(b, p)
    ensures b.held == [] <==> p.held == []
  {
  }

  /** Any interleaving of decoder, player and barge-in does to the list what it does to the blocks: the player gets them
      in the order of pushing, and what is allocated at the end is what waits or is held, each node once. */
  method AnyRun(ops: seq<Op>) returns (q: PlayQueue)
    ensures q.Valid() && Tells(q.books, PlayerRun(ops))
    ensures q.books.live == NodesOf(q.books.held + q.books.nodes)
  {
    hide Balanced, Tells, IsList;
    q := new PlayQueue();
    TellsNothing();
    var held: seq<Node>, i := [], 0;
    assert ops[..0] == [];
    while i < |ops|
      invariant i <= |ops| && fresh(q) && q.Valid() && held == q.books.held
      invariant fresh(q.books.nodes) && Tells(q.books, PlayerRun(ops[..i]))
    {
      assert ops[..i + 1][..i] == ops[..i];
      ghost var b, p := q.books, PlayerRun(ops[..i]);
      HoldsSome(b, p);
      match ops[i] {
        case Add(data, noNode, noData) =>
          ghost var n := q.Push(data, noNode, noData);
          if n != null {
            TellsPush(b, p, n);
          }
        case Take =>
          TellsPop(b, p);
          var node := q.Pop();
          if node != null {
            held := held + [node];
          }
        case GiveBack =>
          if held != [] {
            q.Release(held[0]);
            TellsRelease(b, p);
            held := held[1..];
          }
        case Empty =>
          q.Clear();
          TellsClear(b, p, q.books);
      }
      i := i + 1;
    }
    assert ops[..i] == ops;
    LiveNodes(q.books);
  }

  lemma LiveNodes(b: Books)
    requires Balanced(b)
    ensures b.live == NodesOf(b.held + b.nodes)
  {
  }
}
