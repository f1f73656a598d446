/**
  The free list of the physical page allocator. Its nodes lie in the free pages
  themselves: memory is seen page by page, by the first three words of each page. Page
  0 is never free, and 0 is the null link.
 */
module PhysMem {
  import opened Bits
  import opened PhysPages

  datatype Node = Node(nPages: nat, next: nat, prev: nat)

  function NextOf(runs: seq<Run>, i: nat): nat {
    if i + 1 < |runs| then runs[i + 1].start else 0
  }

  function PrevOf(runs: seq<Run>, i: nat): nat {
    if 0 < i <= |runs| then runs[i - 1].start else 0
  }

  ghost predicate Linked(m: seq<Node>, runs: seq<Run>, i: nat)
    requires i < |runs|
  {
    runs[i].start < |m| && m[runs[i].start] == Node(runs[i].len, NextOf(runs, i), PrevOf(runs, i))
  }

  /** The nodes from head on make up the list of these runs, and tail is its last node. */
  ghost predicate Chain(m: seq<Node>, head: nat, tail: nat, runs: seq<Run>) {
    head == (if runs == [] then 0 else runs[0].start) && tail == PrevOf(runs, |runs|) &&
    forall i :: 0 <= i < |runs| ==> Linked(m, runs, i)
  }

  /** Where nodes lie is all the links depend on. */
  ghost predicate Distinct(runs: seq<Run>) {
    (forall i :: 0 <= i < |runs| ==> runs[i].start > 0) &&
    (forall i, j :: 0 <= i < j < |runs| ==> runs[i].start != runs[j].start)
  }

  lemma ApartDistinct(runs: seq<Run>)
    requires Pairwise(runs)
    ensures Distinct(runs)
  {
    forall i, j | 0 <= i < j < |runs| ensures runs[i].start != runs[j].start {
      assert InBounds(runs[i]) && InBounds(runs[j]) && Apart(runs[i], runs[j]);
    }
    forall i | 0 <= i < |runs| ensures runs[i].start > 0 {
      assert InBounds(runs[i]);
    }
  }

  lemma StartsDiffer(runs: seq<Run>, i: nat, j: nat)
    requires Distinct(runs) && i < |runs| && j < |runs| && i != j
    ensures runs[i].start != runs[j].start && runs[i].start > 0
  {
  }

  lemma ShrinkChain(m: seq<Node>, head: nat, tail: nat, runs: seq<Run>, i: nat, len: nat)
    requires Chain(m, head, tail, runs) && Distinct(runs) && i < |runs|
    ensures Linked(m, runs, i)
    ensures var s := runs[i].start; Chain(m[s := m[s].(nPages := len)], head, tail, runs[i := Run(s, len)])
  {
    hide Distinct;
    assert Linked(m, runs, i);
    var s := runs[i].start;
    var m', runs' := m[s := m[s].(nPages := len)], runs[i := Run(s, len)];
    forall j | 0 <= j < |runs'| ensures Linked(m', runs', j) {
      assert Linked(m, runs, j);
      if j != i {
        StartsDiffer(runs, i, j);
      }
    }
  }

  /** The words written when node i leaves the list. */
  ghost function Unlinked(m: seq<Node>, runs: seq<Run>, i: nat): seq<Node>
    requires i < |runs| && runs[i].start < |m| && NextOf(runs, i) < |m| && PrevOf(runs, i) < |m|
  {
    var nx, pv := NextOf(runs, i), PrevOf(runs, i);
    var m1 := if nx != 0 then m[nx := m[nx].(prev := pv)] else m;
    var m2 := if pv != 0 then m1[pv := m1[pv].(next := nx)] else m1;
    m2[runs[i].start := Node(0, 0, 0)]
  }

  lemma NeighboursInside(m: seq<Node>, head: nat, tail: nat, runs: seq<Run>, i: nat)
    requires Chain(m, head, tail, runs) && i < |runs|
    ensures Linked(m, runs, i) && NextOf(runs, i) < |m| && PrevOf(runs, i) < |m|
  {
    assert Linked(m, runs, i);
    if i + 1 < |runs| {
      assert Linked(m, runs, i + 1);
    }
    if i > 0 {
      assert Linked(m, runs, i - 1);
    }
  }

  lemma UnlinkedAt(m: seq<Node>, head: nat, tail: nat, runs: seq<Run>, i: nat, j: nat)
    requires Chain(m, head, tail, runs) && Distinct(runs) && i < |runs| && j < |runs| && j != i
    requires Linked(m, runs, i) && NextOf(runs, i) < |m| && PrevOf(runs, i) < |m|
    ensures runs[j].start < |m|
    ensures Unlinked(m, runs, i)[runs[j].start] ==
            Node(runs[j].len, if j + 1 == i then NextOf(runs, i) else NextOf(runs, j),
                 if j == i + 1 then PrevOf(runs, i) else PrevOf(runs, j))
  {
    hide Distinct;
    assert Linked(m, runs, j);
    StartsDiffer(runs, i, j);
    if i + 1 < |runs| {
      StartsDiffer(runs, i + 1, i);
      if j != i + 1 {
        StartsDiffer(runs, i + 1, j);
      }
    }
    if i > 0 {
      StartsDiffer(runs, i - 1, i);
      if j != i - 1 {
        StartsDiffer(runs, i - 1, j);
      }
    }
  }

  lemma UnlinkChain(m: seq<Node>, head: nat, tail: nat, runs: seq<Run>, i: nat)
    requires Chain(m, head, tail, runs) && Distinct(runs) && i < |runs|
    requires Linked(m, runs, i) && NextOf(runs, i) < |m| && PrevOf(runs, i) < |m|
    ensures Chain(Unlinked(m, runs, i),
                  if head == runs[i].start then NextOf(runs, i) else head,
                  if tail == runs[i].start then PrevOf(runs, i) else tail, Without(runs, i))
  {
    var m', runs' := Unlinked(m, runs, i), Without(runs, i);
    forall j | 0 <= j < |runs'| ensures Linked(m', runs', j) {
      var h := if j < i then j else j + 1;
      assert runs'[j] == runs[h];
      UnlinkedAt(m, head, tail, runs, i, h);
    }
    if i > 0 {
      StartsDiffer(runs, 0, i);
    }
    if i + 1 < |runs| {
      StartsDiffer(runs, |runs| - 1, i);
    }
  }

  /** The words written when page p, of n pages, is put at the end: its own link to the
      next node is not among them. */
  ghost function Appended(m: seq<Node>, tail: nat, p: nat, n: nat): seq<Node>
    requires p < |m| && tail < |m|
  {
    var m1 := m[p := m[p].(nPages := n)];
    var m2 := if tail != 0 then m1[tail := m1[tail].(next := p)] else m1;
    m2[p := m2[p].(prev := tail)]
  }

  ghost predicate Outside(p: nat, runs: seq<Run>) {
    forall i :: 0 <= i < |runs| ==> runs[i].start != p
  }

  /** The list once a run has k pages fewer. */
  lemma Shrunk(m: seq<Node>, head: nat, tail: nat, runs: seq<Run>, i: nat, k: nat)
    requires Chain(m, head, tail, runs) && Pairwise(runs) && i < |runs| && k <= runs[i].len
    ensures runs[i].start < |m| && m[runs[i].start].nPages == runs[i].len
    ensures var left := Run(runs[i].start, runs[i].len - k);
            var shrunk := runs[i := left];
            Distinct(shrunk) && Chain(m[left.start := m[left.start].(nPages := left.len)], head, tail, shrunk) &&
            Pairwise(Leave(runs, i, left)) && Leave(runs, i, left) == (if left.len == 0 then Without(shrunk, i) else shrunk)
    ensures forall x :: Outside(x, runs) ==> x != runs[i].start && Outside(x, runs[i := Run(runs[i].start, runs[i].len - k)])
  {
    ApartDistinct(runs);
    var left := Run(runs[i].start, runs[i].len - k);
    ShrinkChain(m, head, tail, runs, i, left.len);
    LeavePairwise(runs, [], i, left, Run(left.start + left.len, k));
    hide Pairwise, Chain;
    var shrunk := runs[i := left];
    assert forall j :: 0 <= j < |runs| ==> shrunk[j].start == runs[j].start;
    assert Without(shrunk, i) == Without(runs, i);
  }

  /** The list grows by the freed run exactly if the link word of its first page was 0. */
  lemma AppendChainIff(m: seq<Node>, head: nat, tail: nat, runs: seq<Run>, p: nat, n: nat)
    requires Chain(m, head, tail, runs) && Distinct(runs) && 0 < p < |m| && Outside(p, runs) && tail < |m|
    ensures m[p].next == 0 <==>
            Chain(Appended(m, tail, p, n), if head == 0 then p else head, p, runs + [Run(p, n)])
  {
    hide Distinct;
    var m', runs' := Appended(m, tail, p, n), runs + [Run(p, n)];
    if runs != [] {
      PositiveStart(runs, 0);
      PositiveStart(runs, |runs| - 1);
      assert runs'[0] == runs[0];
    }
    forall j | 0 <= j < |runs| ensures Linked(m', runs', j) {
      assert Linked(m, runs, j);
      if j + 1 < |runs| {
        StartsDiffer(runs, j, |runs| - 1);
      }
    }
    assert NextOf(runs', |runs|) == 0 && PrevOf(runs', |runs|) == tail;
    assert Linked(m', runs', |runs|) <==> m[p].next == 0;
  }

  /** Every word but 0 that the user of page 1 may have left where the next link goes makes
      a list of this page that goes on behind its end. */
  lemma StaleLink(word: nat)
    ensures var m := [Node(0, 0, 0), Node(0, word, 0)];
            Chain(m, 0, 0, []) && (word != 0 <==> !Chain(Appended(m, 0, 1, 1), 1, 1, [Run(1, 1)]))
  {
    var m := [Node(0, 0, 0), Node(0, word, 0)];
    AppendChainIff(m, 0, 0, [], 1, 1);
    assert [] + [Run(1, 1)] == [Run(1, 1)];
  }

  lemma TailInside(m: seq<Node>, head: nat, tail: nat, runs: seq<Run>)
    requires Chain(m, head, tail, runs) && m != []
    ensures tail < |m| && (runs != [] ==> tail == runs[|runs| - 1].start)
  {
    if runs != [] {
      assert Linked(m, runs, |runs| - 1);
    }
  }

  lemma PositiveStart(runs: seq<Run>, i: nat)
    requires Distinct(runs) && i < |runs|
    ensures runs[i].start > 0
  {
  }

  datatype Status = Ok | InvalidArgument | NotEnoughMemory

  /** What a sensible request is promised. */
  lemma Promised(s: State, n: nat, a: nat)
    requires Pairwise(s.free) && s.held == [] && s.used < WORD
    ensures Sensible(n, Effective(a)) ==>
              var t := DoAlloc(s, n, a);
              Accepted(Effective(a)) && (t.held == [] <==> NoneFits(s.free, n, Effective(a))) &&
              (t.held != [] ==> t.held[0].start % Effective(a) == 0 &&
                                exists i :: HandedFirst(s.free, i, t.held[0], t.free, n, Effective(a)))
  {
    hide DoAlloc, AllocDone, HandedFirst, NoneFits, PowerOfTwo;
    if Sensible(n, Effective(a)) {
      PowerAccepted(Effective(a));
      AllocServes(s, n, a);
      HandedOut(s.free, DoAlloc(s, n, a).free, DoAlloc(s, n, a).held, n, Effective(a));
    }
  }

  class Allocator {
    const mem: array<Node>
    var head: nat
    var tail: nat
    var used: nat
    ghost var runs: seq<Run>

    ghost predicate Valid()
      reads this, mem
    {
      mem.Length <= MAX_PAGES && used < WORD && Pairwise(runs) && Chain(mem[..], head, tail, runs)
    }

    /** An empty list over memory of n pages, all of whose link words are 0. */
    constructor (n: nat, used: nat)
      requires n <= MAX_PAGES && used < WORD
      ensures Valid() && runs == [] && this.used == used && fresh(mem) && mem.Length == n
      ensures forall p :: 0 <= p < n ==> mem[p] == Node(0, 0, 0)
    {
      mem := new Node[n](_ => Node(0, 0, 0));
      head, tail, this.used, runs := 0, 0, used, [];
    }

    /** The first node that is sufficient, and how many pages it would give. */
    method Search(m: nat, a: nat) returns (node: nat, k: nat, ghost i: nat)
      requires Valid()
      ensures i == FirstFit(runs, m, a)
      ensures node == 0 <==> i == |runs|
      ensures i < |runs| ==> node == runs[i].start && k == Required(runs[i], m, a)
    {
      hide Required, Pairwise;
      node, k, i := head, 0, 0;
      while node != 0
        invariant i <= |runs| && node == (if i < |runs| then runs[i].start else 0)
        invariant forall j :: 0 <= j < i ==> Required(runs[j], m, a) > runs[j].len
        decreases |runs| - i
      {
        assert Linked(mem[..], runs, i);
        k := Required(Run(node, mem[node].nPages), m, a);
        if k <= mem[node].nPages {
          return;
        }
        node := mem[node].next;
        i := i + 1;
      }
      if i < |runs| {
        ApartDistinct(runs);
        PositiveStart(runs, i);
      }
    }

    method Unlink(node: nat, ghost runs: seq<Run>, ghost i: nat)
      requires i < |runs| && node == runs[i].start && Distinct(runs) && Chain(mem[..], head, tail, runs)
      modifies this`head, this`tail, mem
      ensures Chain(mem[..], head, tail, Without(runs, i))
      ensures forall x :: 0 <= x < mem.Length && Outside(x, runs) ==> mem[x] == old(mem[x])
    {
      ghost var m := mem[..];
      NeighboursInside(m, head, tail, runs, i);
      UnlinkChain(m, head, tail, runs, i);
      hide Distinct, Chain;
      var next, prev := mem[node].next, mem[node].prev;
      if next != 0 {
        mem[next] := mem[next].(prev := prev);
      }
      if prev != 0 {
        mem[prev] := mem[prev].(next := next);
      }
      if head == node {
        head := next;
      }
      if tail == node {
        tail := prev;
      }
      mem[node] := Node(0, 0, 0);
      assert mem[..] == Unlinked(m, runs, i);
    }

    /** Takes the last k pages off a node, which leaves the list when it has no more. */
    method TakePages(node: nat, k: nat, ghost i: nat) returns (phys: nat)
      requires Valid() && i < |runs| && node == runs[i].start && k <= runs[i].len
      modifies this, mem
      ensures Valid() && phys == node + old(runs[i].len) - k
      ensures runs == Leave(old(runs), i, Run(node, old(runs[i].len) - k)) && used == (old(used) + k) % WORD
      ensures forall x :: 0 <= x < mem.Length && Outside(x, old(runs)) ==> mem[x] == old(mem[x])
    {
      hide Pairwise, Chain, Leave, Outside, Distinct;
      ghost var was := runs;
      ghost var left := Run(node, runs[i].len - k);
      Shrunk(mem[..], head, tail, runs, i, k);
      mem[node] := mem[node].(nPages := mem[node].nPages - k);
      assert mem[..] == old(mem[..])[node := old(mem[node]).(nPages := left.len)];
      used := (used + k) % WORD;
      var rest := mem[node].nPages;
      if rest == 0 {
        Unlink(node, was[i := left], i);
      }
      runs := Leave(was, i, left);
      phys := node + rest;
    }

    method Allocate(n0: nat, a0: nat) returns (phys: nat, st: Status)
      requires Valid() && n0 < WORD && a0 < WORD
      modifies this, mem
      ensures Valid()
      ensures st == InvalidArgument <==> n0 == 0 || !Accepted(Effective(a0))
      ensures st != Ok ==> DoAlloc(State(old(runs), [], old(used)), n0, a0) == State(runs, [], used)
      ensures st == Ok ==>
              DoAlloc(State(old(runs), [], old(used)), n0, a0) ==
              State(runs, [Run(phys, RoundTo(n0, Effective(a0)))], used)
      ensures Sensible(n0, Effective(a0)) && st == Ok ==>
              phys % Effective(a0) == 0 &&
              exists i, len :: HandedFirst(old(runs), i, Run(phys, len), runs, n0, Effective(a0))
      ensures Sensible(n0, Effective(a0)) ==> (st == NotEnoughMemory <==> NoneFits(old(runs), n0, Effective(a0)))
      ensures st != Ok ==> phys == 0
      ensures forall x :: 0 <= x < mem.Length && Outside(x, old(runs)) ==> mem[x] == old(mem[x])
    {
      hide Required, RoundTo, Pairwise, Chain, PopCount, Leave, Outside, HandedFirst, NoneFits, PowerOfTwo;
      Promised(State(runs, [], used), n0, a0);
      phys := 0;
      if n0 == 0 {
        return 0, InvalidArgument;
      }
      var a := Effective(a0);
      if PopCount(a % 0x1_0000_0000) > 1 {
        return 0, InvalidArgument;
      }
      var n := RoundTo(n0, a);
      var node, k, i := Search(n, a);
      if node == 0 {
        return 0, NotEnoughMemory;
      }
      phys := TakePages(node, k, i);
      return phys, Ok;
    }

    /** Puts n pages from page p on the list. The list has them exactly if the second word
        of page p was 0. */
    method Free(p: nat, n: nat) returns (st: Status)
      requires Valid() && p < mem.Length && Outside(p, runs)
      modifies this, mem
      ensures st == InvalidArgument <==> p == 0
      ensures p == 0 || n == 0 ==> Valid() && runs == old(runs) && used == old(used) && mem[..] == old(mem[..])
      ensures p != 0 && n != 0 ==>
              runs == old(runs) + [Run(p, n)] && used == (old(used) - n) % WORD &&
              (Chain(mem[..], head, tail, runs) <==> old(mem[p]).next == 0) &&
              forall x :: 0 <= x < mem.Length && x != p && Outside(x, old(runs)) ==> mem[x] == old(mem[x])
    {
      if p == 0 {
        return InvalidArgument;
      }
      if n == 0 {
        return Ok;
      }
      ghost var m := mem[..];
      ApartDistinct(runs);
      TailInside(m, head, tail, runs);
      AppendChainIff(m, head, tail, runs, p, n);
      hide Pairwise, Chain, Distinct;
      mem[p] := mem[p].(nPages := n);
      if tail != 0 {
        mem[tail] := mem[tail].(next := p);
      }
      if head == 0 {
        head := p;
      }
      mem[p] := mem[p].(prev := tail);
      assert mem[..] == Appended(m, tail, p, n);
      tail := p;
      used := (used - n) % WORD;
      runs := runs + [Run(p, n)];
      return Ok;
    }
  }
}
