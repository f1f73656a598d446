/**
  Swapping pages out and in, and moving to another swap device. What the devices, the
  page tables and the physical page allocator answer is an input of each operation.
 */
module Swap {
  import opened Options

  type Pid = nat
  type Dev = nat
  type Data = seq<bv8>

  datatype Page = Page(present: bool, pagedOut: bool, swapId: nat, pageable: bool, reserved: bool,
                       workingSets: nat, kernel: bool)

  datatype Slot = Slot(dev: Dev, id: nat)

  /** The pages; the frame each mapped page has; the contents of the frames in use; the
      device in use; and the contents of the slots reserved on all devices. */
  datatype State = State(pages: map<Pid, Page>, frames: map<Pid, nat>, mem: map<nat, Data>,
                         provider: Option<Dev>, slots: map<Slot, Data>)

  // ---------- what every operation keeps ----------

  ghost predicate Out(s: State, p: Pid) {
    p in s.pages && s.pages[p].pagedOut
  }

  /** A page knows its slot by number only: it is one of the device in use. */
  ghost predicate HasSlot(s: State, p: Pid)
    requires p in s.pages
  {
    s.provider.Some? && Slot(s.provider.value, s.pages[p].swapId) in s.slots
  }

  /** A page that is paged out has a slot and no frame, any other page has a frame. */
  ghost predicate Placed(s: State, p: Pid) {
    p in s.pages ==>
      if s.pages[p].pagedOut then p !in s.frames && HasSlot(s, p)
      else p in s.frames && s.frames[p] in s.mem && s.frames[p] > 0
  }

  ghost predicate SlotsApart(s: State) {
    forall p, q :: Out(s, p) && Out(s, q) && p != q ==> s.pages[p].swapId != s.pages[q].swapId
  }

  ghost predicate FramesApart(s: State) {
    forall p, q :: p in s.frames && q in s.frames && p != q ==> s.frames[p] != s.frames[q]
  }

  ghost predicate Owns(s: State, p: Pid, k: Slot) {
    Out(s, p) && s.provider == Some(k.dev) && s.pages[p].swapId == k.id
  }

  /** Every slot that is reserved, on whatever device, is that of a page. */
  ghost predicate SlotsOwned(s: State) {
    forall k :: k in s.slots ==> exists p :: Owns(s, p, k)
  }

  /** Reserved slots and pages that are paged out correspond one to one; the other pages
      have a frame each. */
  ghost predicate Inv(s: State) {
    (forall p :: Placed(s, p)) && SlotsApart(s) && SlotsOwned(s) && FramesApart(s) && s.frames.Keys <= s.pages.Keys
  }

  /** What a page holds. */
  ghost function Content(s: State, p: Pid): Data
    requires p in s.pages
  {
    if s.pages[p].pagedOut then
      if HasSlot(s, p) then s.slots[Slot(s.provider.value, s.pages[p].swapId)] else []
    else if p in s.frames && s.frames[p] in s.mem then s.mem[s.frames[p]] else []
  }

  ghost predicate SameContents(s: State, t: State) {
    s.pages.Keys == t.pages.Keys && forall p :: p in s.pages ==> Content(s, p) == Content(t, p)
  }

  // ---------- swapping out ----------

  /** The page is in slot id, and its frame is free. */
  function PagedOut(s: State, p: Pid, id: nat): State
    requires s.provider.Some? && p in s.pages && p in s.frames && s.frames[p] in s.mem
  {
    var f := s.frames[p];
    var page := s.pages[p].(present := false, swapId := id, pagedOut := true);
    s.(pages := s.pages[p := page], frames := s.frames - {p}, mem := s.mem - {f},
       slots := s.slots[Slot(s.provider.value, id) := s.mem[f]])
  }

  lemma PagedOutPage(s: State, p: Pid, id: nat, q: Pid)
    requires Inv(s) && s.provider.Some? && Slot(s.provider.value, id) !in s.slots
    requires p in s.pages && !s.pages[p].pagedOut && q in s.pages
    ensures Placed(s, p) && Placed(PagedOut(s, p, id), q)
    ensures Content(PagedOut(s, p, id), q) == Content(s, q)
  {
    assert Placed(s, p) && Placed(s, q);
  }

  lemma PagedOutSlots(s: State, p: Pid, id: nat)
    requires Inv(s) && s.provider.Some? && Slot(s.provider.value, id) !in s.slots
    requires p in s.pages && !s.pages[p].pagedOut
    ensures Placed(s, p) && SlotsApart(PagedOut(s, p, id)) && SlotsOwned(PagedOut(s, p, id))
  {
    assert Placed(s, p);
    var t := PagedOut(s, p, id);
    forall k | k in t.slots ensures exists q :: Owns(t, q, k) {
      if k == Slot(s.provider.value, id) {
        assert Owns(t, p, k);
      } else {
        var q :| Owns(s, q, k);
        assert Owns(t, q, k);
      }
    }
    forall q, r | Out(t, q) && Out(t, r) && q != r ensures t.pages[q].swapId != t.pages[r].swapId {
      assert Placed(s, q) && Placed(s, r);
      assert q != p ==> Out(s, q);
      assert r != p ==> Out(s, r);
    }
  }

  lemma PagedOutKeeps(s: State, p: Pid, id: nat)
    requires Inv(s) && s.provider.Some? && Slot(s.provider.value, id) !in s.slots
    requires p in s.pages && !s.pages[p].pagedOut
    ensures Placed(s, p) && Inv(PagedOut(s, p, id)) && SameContents(s, PagedOut(s, p, id))
  {
    hide SlotsApart, SlotsOwned, Content;
    PagedOutSlots(s, p, id);
    var t := PagedOut(s, p, id);
    forall q ensures Placed(t, q) && (q in s.pages ==> Content(t, q) == Content(s, q)) {
      if q in s.pages {
        PagedOutPage(s, p, id, q);
      }
    }
    hide Placed;
  }

  /** The page is back in frame f, and its slot is free. */
  function PagedIn(s: State, p: Pid, f: nat): State
    requires s.provider.Some? && p in s.pages && Slot(s.provider.value, s.pages[p].swapId) in s.slots
  {
    var k := Slot(s.provider.value, s.pages[p].swapId);
    var page := s.pages[p].(present := true, pagedOut := false);
    s.(pages := s.pages[p := page], frames := s.frames[p := f], mem := s.mem[f := s.slots[k]], slots := s.slots - {k})
  }

  ghost predicate FreeFrame(s: State, f: nat) {
    f > 0 && f !in s.mem && forall q :: q in s.frames ==> s.frames[q] != f
  }

  lemma PagedInPage(s: State, p: Pid, f: nat, q: Pid)
    requires Inv(s) && Out(s, p) && FreeFrame(s, f) && q in s.pages
    ensures Placed(s, p) && HasSlot(s, p) && Placed(PagedIn(s, p, f), q)
    ensures Content(PagedIn(s, p, f), q) == Content(s, q)
  {
    assert Placed(s, p) && Placed(s, q);
    assert Out(s, q) && q != p ==> s.pages[q].swapId != s.pages[p].swapId;
  }

  lemma PagedInSlots(s: State, p: Pid, f: nat)
    requires Inv(s) && Out(s, p)
    ensures HasSlot(s, p) && SlotsApart(PagedIn(s, p, f)) && SlotsOwned(PagedIn(s, p, f))
  {
    assert Placed(s, p);
    var t := PagedIn(s, p, f);
    assert forall q :: Out(t, q) ==> Out(s, q) && q != p;
    forall k | k in t.slots ensures exists q :: Owns(t, q, k) {
      var q :| Owns(s, q, k);
      assert Owns(t, q, k);
    }
  }

  lemma PagedInKeeps(s: State, p: Pid, f: nat)
    requires Inv(s) && Out(s, p) && FreeFrame(s, f)
    ensures HasSlot(s, p) && Inv(PagedIn(s, p, f)) && SameContents(s, PagedIn(s, p, f))
  {
    hide SlotsApart, SlotsOwned, Content;
    PagedInSlots(s, p, f);
    var t := PagedIn(s, p, f);
    forall q ensures Placed(t, q) && (q in s.pages ==> Content(t, q) == Content(s, q)) {
      if q in s.pages {
        PagedInPage(s, p, f, q);
      }
    }
    hide Placed;
  }

  // ---------- Mm_SwapOut ----------

  datatype Status = Ok | NoProvider | InvalidArgument | Failed | InternalError

  /** What the page tables say is the page's frame; the slot the device reserves and what it
      holds after a failed write; whether the write, the unmapping and the release of the
      frame succeed; and, after one of these failed, whether the release of the slot and the
      remapping do. */
  datatype OutAnswers = OutAnswers(lookup: Option<nat>, slot: Option<nat>, blank: Data, writeOk: bool,
                                   unmapOk: bool, releaseOk: bool, freeOk: bool, remapOk: bool)

  /** A device reserves slots that are not in use. A page without a frame is looked up
      in vain, or is said to be in frame 0. */
  ghost predicate OutBehaved(s: State, p: Pid, a: OutAnswers) {
    (s.provider.Some? && a.slot.Some? ==> Slot(s.provider.value, a.slot.value) !in s.slots) &&
    (a.lookup.Some? ==> if p in s.frames then a.lookup.value == s.frames[p] else a.lookup.value == 0)
  }

  /** Whether the page gets as far as having a slot reserved for it. */
  predicate Reserved(s: State, p: Pid, a: OutAnswers) {
    s.provider.Some? && p in s.pages && !s.pages[p].reserved && s.pages[p].pageable && s.pages[p].workingSets == 0 &&
    a.lookup.Some? && a.slot.Some?
  }

  /** What follows once the slot is reserved. */
  ghost function AfterReserve(s: State, p: Pid, a: OutAnswers): (State, Status)
    requires Reserved(s, p, a)
  {
    var f, k := a.lookup.value, Slot(s.provider.value, a.slot.value);
    var data := if f in s.mem then s.mem[f] else [];
    var page := s.pages[p].(present := false, swapId := k.id);
    if !a.writeOk then
      if a.freeOk then (s, Failed) else (s.(slots := s.slots[k := a.blank]), InternalError)
    else if !a.unmapOk then
      var kept := s.(pages := s.pages[p := page]);
      if a.freeOk then (kept, Failed) else (kept.(slots := s.slots[k := data]), InternalError)
    else if f != 0 && !a.releaseOk then
      if !a.freeOk then
        (s.(pages := s.pages[p := page], frames := s.frames - {p}, slots := s.slots[k := data]), InternalError)
      else
        var back := s.(pages := s.pages[p := page.(present := true)]);
        if a.remapOk then (back, Failed) else (back.(frames := s.frames - {p}), InternalError)
    else
      (s.(pages := s.pages[p := page.(pagedOut := true)], frames := s.frames - {p},
          mem := s.mem - {f}, slots := s.slots[k := data]), Ok)
  }

  /** The page is written and unmapped, and its frame cannot be released. */
  ghost predicate FrameStuck(a: OutAnswers) {
    a.writeOk && a.unmapOk && a.lookup.Some? && a.lookup.value != 0 && !a.releaseOk
  }

  /** The page is not written over a slot it has; a slot that is not used is released; and a
      page whose frame stays is mapped again. */
  ghost predicate OutSafe(s: State, p: Pid, a: OutAnswers)
    requires p in s.pages
  {
    (a.writeOk ==> !s.pages[p].pagedOut) &&
    (!a.writeOk || !a.unmapOk || FrameStuck(a) ==> a.freeOk) &&
    (FrameStuck(a) ==> a.remapOk)
  }

  /** Contents and slots stay in order exactly if that is so. */
  lemma OutKeepsIff(s: State, p: Pid, a: OutAnswers)
    requires Inv(s) && OutBehaved(s, p, a) && Reserved(s, p, a)
    ensures var t := AfterReserve(s, p, a).0;
            Inv(t) && SameContents(s, t) <==> OutSafe(s, p, a)
  {
    var (t, st) := AfterReserve(s, p, a);
    var k := Slot(s.provider.value, a.slot.value);
    assert Placed(s, p);
    if !a.writeOk {
      if !a.freeOk {
        Nobodys(s, t, k);
      }
    } else if s.pages[p].pagedOut {
      TwiceBreaks(s, p, a);
    } else if st == Ok {
      PagedOutKeeps(s, p, k.id);
      assert t == PagedOut(s, p, k.id);
    } else if a.unmapOk && (!a.freeOk || !a.remapOk) {
      assert !Placed(t, p);
    } else if !a.freeOk {
      UnusedSlot(s, t, p, k);
    } else {
      NotOutKeeps(s, t, p);
    }
  }

  /** A slot that was just reserved is no page's. */
  lemma Nobodys(s: State, t: State, k: Slot)
    requires Inv(s) && k !in s.slots && t.pages == s.pages && t.provider == s.provider && k in t.slots
    ensures !SlotsOwned(t)
  {
    forall q ensures !Owns(t, q, k) {
      assert Placed(s, q);
    }
  }

  lemma UnusedSlot(s: State, t: State, p: Pid, k: Slot)
    requires Inv(s) && k !in s.slots && k in t.slots && t.provider == s.provider
    requires p in s.pages && p in t.pages && !t.pages[p].pagedOut && t.pages == s.pages[p := t.pages[p]]
    ensures !SlotsOwned(t)
  {
    forall q ensures !Owns(t, q, k) {
      assert Placed(s, q);
    }
  }

  /** A page that is swapped out twice loses its slot, and its contents with it. */
  lemma TwiceBreaks(s: State, p: Pid, a: OutAnswers)
    requires Inv(s) && OutBehaved(s, p, a) && Reserved(s, p, a) && a.writeOk && s.pages[p].pagedOut
    ensures !Inv(AfterReserve(s, p, a).0)
  {
    var t := AfterReserve(s, p, a).0;
    assert Placed(s, p) && Out(s, p);
    var lost := Slot(s.provider.value, s.pages[p].swapId);
    assert a.lookup.value == 0;
    if !a.unmapOk && a.freeOk {
      assert !Placed(t, p);
    } else {
      assert lost in t.slots && t.pages[p].swapId != lost.id;
      forall q ensures !Owns(t, q, lost) {
        assert q != p && Out(t, q) ==> Out(s, q);
      }
    }
  }

  lemma NotOutSlots(s: State, t: State, p: Pid)
    requires SlotsApart(s) && SlotsOwned(s) && p in s.pages && !s.pages[p].pagedOut && p in t.pages && !t.pages[p].pagedOut
    requires t.slots == s.slots && t.provider == s.provider && t.pages == s.pages[p := t.pages[p]]
    ensures SlotsApart(t) && SlotsOwned(t)
  {
    assert forall q :: Out(t, q) <==> Out(s, q);
    forall k | k in t.slots ensures exists q :: Owns(t, q, k) {
      var q :| Owns(s, q, k);
      assert Owns(t, q, k);
    }
  }

  lemma NotOutKeeps(s: State, t: State, p: Pid)
    requires Inv(s) && p in s.pages && !s.pages[p].pagedOut && p in t.pages && !t.pages[p].pagedOut
    requires t == s.(pages := t.pages) && t.pages == s.pages[p := t.pages[p]]
    ensures Inv(t) && SameContents(s, t)
  {
    NotOutSlots(s, t, p);
    hide SlotsApart, SlotsOwned;
    forall q ensures Placed(t, q) && (q in s.pages ==> Content(t, q) == Content(s, q)) {
      assert Placed(s, q);
    }
  }

  // ---------- Mm_ChangeSwapProvider ----------

  /** What the devices answer for one page: whether the old one reads and frees its slot;
      the slot the new one reserves, if any, and what that holds at first; and whether the
      new one writes. */
  datatype MoveAnswer = MoveAnswer(readOk: bool, freeOk: bool, slot: Option<nat>, blank: Data, writeOk: bool)

  /** Halfway from one device to another. */
  datatype Moving = Moving(from: Dev, to: Dev, pages: map<Pid, Page>, slots: map<Slot, Data>, buffer: Data)

  /** What becomes of one page. No answer is looked at: after a failed read the buffer holds
      what it held before, a slot that is not freed stays reserved, and without a new slot the
      page is written to slot 0. */
  function MoveOne(h: Moving, p: Pid, answers: map<Pid, MoveAnswer>): Moving {
    if p !in h.pages || !h.pages[p].pagedOut || p !in answers then h
    else
      var a, k := answers[p], Slot(h.from, h.pages[p].swapId);
      var buffer := if a.readOk && k in h.slots then h.slots[k] else h.buffer;
      var freed := if a.freeOk then h.slots - {k} else h.slots;
      var n := Slot(h.to, if a.slot.Some? then a.slot.value else 0);
      var reserved := if a.slot.Some? then freed[n := a.blank] else freed;
      var written := if a.writeOk && n in reserved then reserved[n := buffer] else reserved;
      h.(pages := h.pages[p := h.pages[p].(swapId := n.id)], slots := written, buffer := buffer)
  }

  ghost function MoveAll(s: State, dev: Dev, tree: seq<Pid>, n: nat, answers: map<Pid, MoveAnswer>, buffer: Data): Moving
    requires s.provider.Some? && n <= |tree|
  {
    if n == 0 then Moving(s.provider.value, dev, s.pages, s.slots, buffer)
    else MoveOne(MoveAll(s, dev, tree, n - 1, answers, buffer), tree[n - 1], answers)
  }

  ghost function Moved(s: State, dev: Dev, tree: seq<Pid>, answers: map<Pid, MoveAnswer>, buffer: Data): State
    requires s.provider.Some?
  {
    var h := MoveAll(s, dev, tree, |tree|, answers, buffer);
    s.(pages := h.pages, provider := Some(dev), slots := h.slots)
  }

  ghost function DoChange(s: State, dev: Dev, tree: seq<Pid>, answers: map<Pid, MoveAnswer>, buffer: Data): State {
    if s.provider.None? || s.provider == Some(dev) then s.(provider := Some(dev))
    else Moved(s, dev, tree, answers, buffer)
  }

  /** The tree of the kernel's pages, each once. */
  ghost predicate KernelTree(s: State, tree: seq<Pid>) {
    (forall i, j :: 0 <= i < j < |tree| ==> tree[i] != tree[j]) &&
    (forall p :: p in tree <==> p in s.pages && s.pages[p].kernel)
  }

  /** There is an answer for every page, and different pages get different slots. */
  ghost predicate Answered(s: State, answers: map<Pid, MoveAnswer>) {
    s.pages.Keys <= answers.Keys &&
    forall p, q :: p in answers && q in answers && p != q && answers[p].slot.Some? ==> answers[p].slot != answers[q].slot
  }

  ghost predicate Granted(answers: map<Pid, MoveAnswer>, p: Pid) {
    p in answers && answers[p].slot.Some?
  }

  ghost predicate MovePages(s: State, h: Moving, done: seq<Pid>, answers: map<Pid, MoveAnswer>) {
    h.pages.Keys == s.pages.Keys &&
    forall p :: p in s.pages ==>
      h.pages[p] == if p in done && s.pages[p].pagedOut
                    then s.pages[p].(swapId := if Granted(answers, p) then answers[p].slot.value else 0) else s.pages[p]
  }

  ghost predicate NewOwner(s: State, done: seq<Pid>, answers: map<Pid, MoveAnswer>, id: nat, p: Pid) {
    p in done && Out(s, p) && Granted(answers, p) && answers[p].slot.value == id
  }

  /** The slots of the new device are those granted to the pages of done. Of the old device
      the other pages have theirs still, and a page of done exactly if it was not freed. */
  ghost predicate MoveSlots(s: State, h: Moving, done: seq<Pid>, answers: map<Pid, MoveAnswer>) {
    s.provider == Some(h.from) && h.from != h.to &&
    (forall k :: k in h.slots ==> k.dev == h.to || (k.dev == h.from && k in s.slots)) &&
    (forall id :: Slot(h.to, id) in h.slots <==> exists p :: NewOwner(s, done, answers, id, p)) &&
    (forall p :: Out(s, p) && p !in done ==>
       Slot(h.from, s.pages[p].swapId) in h.slots && h.slots[Slot(h.from, s.pages[p].swapId)] == Content(s, p)) &&
    (forall p :: Out(s, p) && p in done && p in answers ==>
       (Slot(h.from, s.pages[p].swapId) in h.slots <==> !answers[p].freeOk))
  }

  /** The new device has a slot for p, p is read and written, and its old slot is freed. */
  ghost predicate Carried(answers: map<Pid, MoveAnswer>, p: Pid) {
    Granted(answers, p) && answers[p].readOk && answers[p].writeOk && answers[p].freeOk
  }

  ghost predicate MoveContents(s: State, h: Moving, done: seq<Pid>, answers: map<Pid, MoveAnswer>) {
    forall p :: p in done && Out(s, p) && Carried(answers, p) ==>
      Slot(h.to, answers[p].slot.value) in h.slots && h.slots[Slot(h.to, answers[p].slot.value)] == Content(s, p)
  }

  ghost predicate AllGranted(s: State, ps: seq<Pid>, answers: map<Pid, MoveAnswer>) {
    forall p :: p in ps && Out(s, p) ==> Granted(answers, p)
  }

  ghost predicate Moves(s: State, dev: Dev) {
    s.provider.Some? && s.provider != Some(dev)
  }

  lemma {:induction false} MoveAllLemma(s: State, dev: Dev, tree: seq<Pid>, n: nat, answers: map<Pid, MoveAnswer>, buffer: Data)
    returns (h: Moving)
    requires Inv(s) && Moves(s, dev) && KernelTree(s, tree) && Answered(s, answers) && n <= |tree|
    ensures h == MoveAll(s, dev, tree, n, answers, buffer) && h.to == dev
    ensures MovePages(s, h, tree[..n], answers) && MoveSlots(s, h, tree[..n], answers)
    ensures AllGranted(s, tree, answers) ==> MoveContents(s, h, tree[..n], answers)
  {
    hide Inv, MovePages, MoveSlots, MoveContents, MoveOne, Answered, Out, KernelTree;
    if n == 0 {
      h := Moving(s.provider.value, dev, s.pages, s.slots, buffer);
      MoveStart(s, dev, answers, buffer);
      assert tree[..0] == [];
    } else {
      var g := MoveAllLemma(s, dev, tree, n - 1, answers, buffer);
      h := MoveOne(g, tree[n - 1], answers);
      assert tree[..n] == tree[..n - 1] + [tree[n - 1]];
      NotYet(s, tree, n - 1);
      SameDevices(g, tree[n - 1], answers);
      MoveOneLemma(s, g, tree[..n - 1], tree[n - 1], answers);
      if AllGranted(s, tree, answers) {
        MoveOneContents(s, g, tree[..n - 1], tree[n - 1], answers);
      }
    }
  }

  lemma NotYet(s: State, tree: seq<Pid>, n: nat)
    requires KernelTree(s, tree) && n < |tree|
    ensures tree[n] !in tree[..n] && tree[n] in tree
  {
  }

  lemma SameDevices(g: Moving, p: Pid, answers: map<Pid, MoveAnswer>)
    ensures MoveOne(g, p, answers).from == g.from && MoveOne(g, p, answers).to == g.to
  {
  }

  lemma MoveStart(s: State, dev: Dev, answers: map<Pid, MoveAnswer>, buffer: Data)
    requires Inv(s) && Moves(s, dev)
    ensures var h := Moving(s.provider.value, dev, s.pages, s.slots, buffer);
            MovePages(s, h, [], answers) && MoveSlots(s, h, [], answers) && MoveContents(s, h, [], answers)
  {
    var h := Moving(s.provider.value, dev, s.pages, s.slots, buffer);
    forall p | Out(s, p)
      ensures Slot(h.from, s.pages[p].swapId) in h.slots && h.slots[Slot(h.from, s.pages[p].swapId)] == Content(s, p)
    {
      assert Placed(s, p);
    }
    forall k | k in h.slots ensures k.dev == h.from {
      var p :| Owns(s, p, k);
    }
  }

  lemma MoveOneLemma(s: State, g: Moving, done: seq<Pid>, p: Pid, answers: map<Pid, MoveAnswer>)
    requires Inv(s) && Answered(s, answers) && p !in done
    requires MovePages(s, g, done, answers) && MoveSlots(s, g, done, answers)
    ensures MovePages(s, MoveOne(g, p, answers), done + [p], answers)
    ensures MoveSlots(s, MoveOne(g, p, answers), done + [p], answers)
  {
    MoveOnePages(s, g, done, p, answers);
    SameDevices(g, p, answers);
    Within(s, g, done, p, answers);
    MoveOneFrom(s, g, done, p, answers);
    MoveOneFreed(s, g, done, p, answers);
    MoveOneKeys(s, g, done, p, answers);
    hide MoveOne, MovePages, Inv, Answered;
  }

  lemma MoveOnePages(s: State, g: Moving, done: seq<Pid>, p: Pid, answers: map<Pid, MoveAnswer>)
    requires Answered(s, answers) && p !in done && MovePages(s, g, done, answers)
    ensures MovePages(s, MoveOne(g, p, answers), done + [p], answers)
  {
    assert forall q :: q in done + [p] <==> q in done || q == p;
  }

  lemma Within(s: State, g: Moving, done: seq<Pid>, p: Pid, answers: map<Pid, MoveAnswer>)
    requires MoveSlots(s, g, done, answers)
    ensures forall k :: k in MoveOne(g, p, answers).slots ==> k.dev == g.to || (k.dev == g.from && k in s.slots)
  {
  }

  /** The slots of the old device after one page. */
  lemma OldSlots(g: Moving, p: Pid, answers: map<Pid, MoveAnswer>, id: nat)
    requires g.from != g.to
    ensures var h, k := MoveOne(g, p, answers), Slot(g.from, id);
            var frees := p in g.pages && g.pages[p].pagedOut && p in answers && answers[p].freeOk && g.pages[p].swapId == id;
            (k in h.slots <==> k in g.slots && !frees) && (k in h.slots ==> h.slots[k] == g.slots[k])
  {
  }

  lemma MoveOneFrom(s: State, g: Moving, done: seq<Pid>, p: Pid, answers: map<Pid, MoveAnswer>)
    requires Inv(s) && p !in done && MovePages(s, g, done, answers) && MoveSlots(s, g, done, answers)
    ensures var h := MoveOne(g, p, answers);
            forall q :: Out(s, q) && q !in done + [p] ==>
              Slot(g.from, s.pages[q].swapId) in h.slots && h.slots[Slot(g.from, s.pages[q].swapId)] == Content(s, q)
  {
    hide MoveOne;
    var h := MoveOne(g, p, answers);
    forall q | Out(s, q) && q !in done + [p]
      ensures Slot(g.from, s.pages[q].swapId) in h.slots && h.slots[Slot(g.from, s.pages[q].swapId)] == Content(s, q)
    {
      assert q !in done && q != p;
      assert Out(s, p) ==> s.pages[q].swapId != s.pages[p].swapId;
      OldSlots(g, p, answers, s.pages[q].swapId);
    }
  }

  lemma MoveOneFreed(s: State, g: Moving, done: seq<Pid>, p: Pid, answers: map<Pid, MoveAnswer>)
    requires Inv(s) && p !in done && MovePages(s, g, done, answers) && MoveSlots(s, g, done, answers)
    ensures var h := MoveOne(g, p, answers);
            forall q :: Out(s, q) && q in done + [p] && q in answers ==>
              (Slot(g.from, s.pages[q].swapId) in h.slots <==> !answers[q].freeOk)
  {
    hide MoveOne;
    var h := MoveOne(g, p, answers);
    forall q | Out(s, q) && q in done + [p] && q in answers
      ensures Slot(g.from, s.pages[q].swapId) in h.slots <==> !answers[q].freeOk
    {
      assert q != p ==> q in done;
      assert q != p && Out(s, p) ==> s.pages[q].swapId != s.pages[p].swapId;
      OldSlots(g, p, answers, s.pages[q].swapId);
    }
  }

  lemma MoveOneKeys(s: State, g: Moving, done: seq<Pid>, p: Pid, answers: map<Pid, MoveAnswer>)
    requires Answered(s, answers) && p !in done && MovePages(s, g, done, answers) && MoveSlots(s, g, done, answers)
    ensures forall id :: Slot(g.to, id) in MoveOne(g, p, answers).slots <==>
              exists q :: NewOwner(s, done + [p], answers, id, q)
  {
    assert p in g.pages && g.pages[p].pagedOut <==> Out(s, p);
    MoveOneTo(g, p, answers);
    var h := MoveOne(g, p, answers);
    hide MoveOne, MovePages, Answered;
    forall id ensures Slot(g.to, id) in h.slots <==> exists q :: NewOwner(s, done + [p], answers, id, q) {
      if Slot(g.to, id) in g.slots {
        var q :| NewOwner(s, done, answers, id, q);
        assert NewOwner(s, done + [p], answers, id, q);
      }
      if Out(s, p) && Granted(answers, p) && answers[p].slot.value == id {
        assert NewOwner(s, done + [p], answers, id, p);
      }
      if q :| NewOwner(s, done + [p], answers, id, q) {
        assert q != p ==> NewOwner(s, done, answers, id, q);
      }
    }
  }

  lemma MoveOneTo(g: Moving, p: Pid, answers: map<Pid, MoveAnswer>)
    requires g.from != g.to
    ensures forall id :: Slot(g.to, id) in MoveOne(g, p, answers).slots <==>
              Slot(g.to, id) in g.slots ||
              (p in g.pages && g.pages[p].pagedOut && Granted(answers, p) && answers[p].slot.value == id)
  {
  }

  lemma MoveOneContents(s: State, g: Moving, done: seq<Pid>, p: Pid, answers: map<Pid, MoveAnswer>)
    requires Inv(s) && p !in done && MovePages(s, g, done, answers) && MoveSlots(s, g, done, answers)
    requires MoveContents(s, g, done, answers) && Answered(s, answers) && (Out(s, p) ==> Granted(answers, p))
    ensures MoveContents(s, MoveOne(g, p, answers), done + [p], answers)
  {
    var h := MoveOne(g, p, answers);
    hide Inv, Content;
    forall q | q in done + [p] && Out(s, q) && Carried(answers, q)
      ensures Slot(h.to, answers[q].slot.value) in h.slots && h.slots[Slot(h.to, answers[q].slot.value)] == Content(s, q)
    {
      if q != p {
        assert q in done;
      }
    }
  }

  // ---------- what the move keeps ----------

  /** Nothing is to be moved: there was no device in use, or it is the same. */
  lemma SameDevice(s: State, dev: Dev)
    requires Inv(s) && !Moves(s, dev)
    ensures Inv(s.(provider := Some(dev))) && SameContents(s, s.(provider := Some(dev)))
  {
    var t := s.(provider := Some(dev));
    forall p ensures Placed(t, p) {
      assert Placed(s, p);
    }
    forall k | k in t.slots ensures exists q :: Owns(t, q, k) {
      var q :| Owns(s, q, k);
      assert Owns(t, q, k);
    }
    assert forall p :: p in s.pages ==> Placed(s, p);
  }

  /** Slots and pages that are out stay one to one exactly if nothing is to be moved, or
      each of these pages is the kernel's, the new device reserved a slot for it and the old
      one freed its slot. */
  lemma MoveInvIff(s: State, dev: Dev, tree: seq<Pid>, answers: map<Pid, MoveAnswer>, buffer: Data)
    requires Inv(s) && KernelTree(s, tree) && Answered(s, answers)
    ensures Inv(DoChange(s, dev, tree, answers, buffer)) <==>
            !Moves(s, dev) || forall p :: Out(s, p) ==> s.pages[p].kernel && Granted(answers, p) && answers[p].freeOk
  {
    if !Moves(s, dev) {
      SameDevice(s, dev);
    } else {
      var h := MoveAllLemma(s, dev, tree, |tree|, answers, buffer);
      assert tree[..|tree|] == tree;
      var t := Moved(s, dev, tree, answers, buffer);
      if p :| Out(s, p) && !(s.pages[p].kernel && Granted(answers, p) && answers[p].freeOk) {
        MoveBreaks(s, t, h, tree, answers, p);
      } else {
        MoveKeepsInv(s, t, h, tree, answers);
      }
    }
  }

  lemma MoveKeepsInv(s: State, t: State, h: Moving, tree: seq<Pid>, answers: map<Pid, MoveAnswer>)
    requires Inv(s) && KernelTree(s, tree) && Answered(s, answers)
    requires forall p :: Out(s, p) ==> s.pages[p].kernel && Granted(answers, p) && answers[p].freeOk
    requires MovePages(s, h, tree, answers) && MoveSlots(s, h, tree, answers)
    requires t == s.(pages := h.pages, provider := Some(h.to), slots := h.slots)
    ensures Inv(t)
  {
    assert forall p :: Out(t, p) <==> Out(s, p);
    assert forall p :: Out(s, p) ==> p in tree;
    MoveKeepsSlots(s, t, h, tree, answers);
    hide SlotsApart, SlotsOwned;
    forall q ensures Placed(t, q) {
      assert Placed(s, q);
      if Out(s, q) {
        assert NewOwner(s, tree, answers, answers[q].slot.value, q);
      }
    }
  }

  lemma MoveKeepsSlots(s: State, t: State, h: Moving, tree: seq<Pid>, answers: map<Pid, MoveAnswer>)
    requires Inv(s) && Answered(s, answers)
    requires forall p :: Out(s, p) ==> p in tree && Granted(answers, p) && answers[p].freeOk
    requires MovePages(s, h, tree, answers) && MoveSlots(s, h, tree, answers)
    requires t == s.(pages := h.pages, provider := Some(h.to), slots := h.slots)
    ensures SlotsApart(t) && SlotsOwned(t)
  {
    assert forall p :: Out(t, p) <==> Out(s, p);
    forall k | k in t.slots ensures exists q :: Owns(t, q, k) {
      OnNewDevice(s, h, tree, answers, k);
      var q :| NewOwner(s, tree, answers, k.id, q);
      assert Owns(t, q, k);
    }
  }

  /** Nothing is left on the old device. */
  lemma OnNewDevice(s: State, h: Moving, tree: seq<Pid>, answers: map<Pid, MoveAnswer>, k: Slot)
    requires Inv(s) && Answered(s, answers) && MoveSlots(s, h, tree, answers) && k in h.slots
    requires forall p :: Out(s, p) ==> p in tree && Granted(answers, p) && answers[p].freeOk
    ensures k.dev == h.to && k == Slot(h.to, k.id)
  {
    forall i | i in s.slots ensures i !in h.slots {
      var p :| Owns(s, p, i);
      assert i == Slot(h.from, s.pages[p].swapId);
    }
  }

  lemma MoveBreaks(s: State, t: State, h: Moving, tree: seq<Pid>, answers: map<Pid, MoveAnswer>, p: Pid)
    requires Inv(s) && KernelTree(s, tree) && Answered(s, answers)
    requires Out(s, p) && !(s.pages[p].kernel && Granted(answers, p) && answers[p].freeOk)
    requires MovePages(s, h, tree, answers) && MoveSlots(s, h, tree, answers)
    requires t == s.(pages := h.pages, provider := Some(h.to), slots := h.slots)
    ensures !Inv(t)
  {
    assert Out(t, p);
    if p !in tree || !answers[p].freeOk {
      var k := Slot(h.from, s.pages[p].swapId);
      assert k in t.slots;
      assert forall q :: !Owns(t, q, k);
      assert !SlotsOwned(t);
    } else {
      NoSlot(s, t, h, tree, answers, p);
    }
  }

  lemma NoSlot(s: State, t: State, h: Moving, tree: seq<Pid>, answers: map<Pid, MoveAnswer>, p: Pid)
    requires Out(s, p) && p in tree && !Granted(answers, p)
    requires MovePages(s, h, tree, answers) && MoveSlots(s, h, tree, answers)
    requires t == s.(pages := h.pages, provider := Some(h.to), slots := h.slots)
    ensures !Inv(t)
  {
    assert Out(t, p);
    var id := t.pages[p].swapId;
    if Slot(h.to, id) in t.slots {
      var q :| NewOwner(s, tree, answers, id, q);
      assert Out(t, q) && t.pages[q].swapId == id && q != p;
      assert !SlotsApart(t);
    } else {
      assert !Placed(t, p);
    }
  }

  /** If moreover every page is read and written, each keeps its contents. */
  lemma MoveCarries(s: State, dev: Dev, tree: seq<Pid>, answers: map<Pid, MoveAnswer>, buffer: Data)
    requires Inv(s) && KernelTree(s, tree) && Answered(s, answers)
    requires !Moves(s, dev) || forall p :: Out(s, p) ==> s.pages[p].kernel && Carried(answers, p)
    ensures var t := DoChange(s, dev, tree, answers, buffer);
            Inv(t) && SameContents(s, t)
  {
    hide Inv, MoveAll, MovePages, MoveSlots, MoveContents, KernelTree, Content;
    MoveInvIff(s, dev, tree, answers, buffer);
    if Moves(s, dev) {
      var h := MoveAllLemma(s, dev, tree, |tree|, answers, buffer);
      assert tree[..|tree|] == tree;
      var t := Moved(s, dev, tree, answers, buffer);
      assert t.pages.Keys == s.pages.Keys by { MovedKeys(s, h, tree, answers); }
      forall q | q in s.pages ensures Content(t, q) == Content(s, q) {
        CarriedPage(s, t, h, tree, answers, q);
      }
    } else {
      SameDevice(s, dev);
    }
  }

  lemma MovedKeys(s: State, h: Moving, done: seq<Pid>, answers: map<Pid, MoveAnswer>)
    requires MovePages(s, h, done, answers)
    ensures h.pages.Keys == s.pages.Keys
  {
  }

  lemma CarriedPage(s: State, t: State, h: Moving, tree: seq<Pid>, answers: map<Pid, MoveAnswer>, q: Pid)
    requires Inv(s) && KernelTree(s, tree) && q in s.pages && q in t.pages
    requires Out(s, q) ==> s.pages[q].kernel && Carried(answers, q)
    requires MovePages(s, h, tree, answers) && MoveContents(s, h, tree, answers)
    requires t == s.(pages := h.pages, provider := Some(h.to), slots := h.slots)
    ensures Content(t, q) == Content(s, q)
  {
    assert Placed(s, q);
    assert Out(s, q) ==> q in tree;
  }

  // ---------- contents that do get lost ----------

  /** The same pages and slots with other contents. */
  ghost predicate SameButData(s: State, t: State) {
    t.pages == s.pages && t.frames == s.frames && t.mem == s.mem && t.provider == s.provider &&
    t.slots.Keys == s.slots.Keys
  }

  /** The same answers with other contents of slots that were never written. */
  ghost predicate SameButBlank(a: map<Pid, MoveAnswer>, b: map<Pid, MoveAnswer>) {
    a.Keys == b.Keys && forall p :: p in a ==> b[p] == a[p].(blank := b[p].blank)
  }

  /** Slots and pages stay in order and every page keeps its contents, whatever pages,
      buffer and unwritten slots hold. */
  ghost predicate AlwaysKept(s: State, dev: Dev, tree: seq<Pid>, answers: map<Pid, MoveAnswer>) {
    forall s', answers', buffer ::
      SameButData(s, s') && SameButBlank(answers, answers') ==>
        var t := DoChange(s', dev, tree, answers', buffer);
        Inv(t) && SameContents(s', t)
  }

  lemma SameButDataInv(s: State, t: State)
    requires Inv(s) && SameButData(s, t)
    ensures Inv(t) && forall p :: Out(s, p) <==> Out(t, p)
  {
    assert forall p :: Out(s, p) <==> Out(t, p);
    forall p ensures Placed(t, p) {
      assert Placed(s, p);
    }
    forall k | k in t.slots ensures exists q :: Owns(t, q, k) {
      assert k in s.slots;
      var q :| Owns(s, q, k);
      assert Owns(t, q, k);
    }
  }

  /** Changing the device keeps slots and contents in order, whatever they are, exactly if
      nothing is to be moved, or every page that is out is the kernel's, gets a slot, is both
      read and written, and has its old slot freed. */
  lemma MoveKeepsIff(s: State, dev: Dev, tree: seq<Pid>, answers: map<Pid, MoveAnswer>)
    requires Inv(s) && KernelTree(s, tree) && Answered(s, answers)
    ensures AlwaysKept(s, dev, tree, answers) <==>
            !Moves(s, dev) || forall p :: Out(s, p) ==> s.pages[p].kernel && Carried(answers, p)
  {
    hide Inv, KernelTree, DoChange, SameContents;
    if !Moves(s, dev) || forall p :: Out(s, p) ==> s.pages[p].kernel && Carried(answers, p) {
      forall s', answers', buffer | SameButData(s, s') && SameButBlank(answers, answers')
        ensures var t := DoChange(s', dev, tree, answers', buffer); Inv(t) && SameContents(s', t)
      {
        SameButDataInv(s, s');
        SameTree(s, s', tree);
        MoveCarries(s', dev, tree, answers', buffer);
      }
    } else {
      var p :| Out(s, p) && !(s.pages[p].kernel && Carried(answers, p));
      NotKept(s, dev, tree, answers, p);
    }
  }

  lemma SameTree(s: State, t: State, tree: seq<Pid>)
    requires KernelTree(s, tree) && t.pages == s.pages
    ensures KernelTree(t, tree)
  {
  }

  lemma NotKept(s: State, dev: Dev, tree: seq<Pid>, answers: map<Pid, MoveAnswer>, p: Pid)
    requires Inv(s) && Moves(s, dev) && KernelTree(s, tree) && Answered(s, answers)
    requires Out(s, p) && !(s.pages[p].kernel && Carried(answers, p))
    ensures !AlwaysKept(s, dev, tree, answers)
  {
    var s', answers' := Marked(s, p), Blanked(answers);
    MarkedLemma(s, p, answers);
    SameButDataInv(s, s');
    SameTree(s, s', tree);
    var t := DoChange(s', dev, tree, answers', [0]);
    hide Inv, Moved, KernelTree, Answered, SameContents, Marked, Blanked, SameButBlank;
    assert !(Inv(t) && SameContents(s', t)) by {
      if Inv(t) {
        MoveInvIff(s', dev, tree, answers', [0]);
        LostThere(s', dev, tree, answers', p);
      }
    }
    assert SameButBlank(answers, answers') && SameButData(s, s');
  }

  function OutPage(id: nat): Page {
    Page(false, true, id, true, false, 0, true)
  }

  function TwoOut(x: Data, y: Data): State {
    State(map[0 := OutPage(0), 1 := OutPage(1)], map[], map[], Some(0), map[Slot(0, 0) := x, Slot(0, 1) := y])
  }

  function SecondUnread(): map<Pid, MoveAnswer> {
    map[0 := MoveAnswer(true, true, Some(0), [], true), 1 := MoveAnswer(false, true, Some(1), [], true)]
  }

  lemma TwoOutInv(x: Data, y: Data)
    ensures Inv(TwoOut(x, y)) && KernelTree(TwoOut(x, y), [0, 1]) && Answered(TwoOut(x, y), SecondUnread())
    ensures forall p :: Out(TwoOut(x, y), p) <==> p == 0 || p == 1
  {
    var s := TwoOut(x, y);
    assert forall p :: Out(s, p) <==> p == 0 || p == 1;
    assert Owns(s, 0, Slot(0, 0)) && Owns(s, 1, Slot(0, 1));
  }

  /** Two pages of the kernel, of which the second cannot be read: it ends up with the
      contents of the first. */
  lemma WrongContents(x: Data, y: Data)
    ensures var s, t := TwoOut(x, y), DoChange(TwoOut(x, y), 1, [0, 1], SecondUnread(), []);
            Inv(s) && Inv(t) && 1 in t.pages && Content(s, 1) == y && Content(t, 1) == x
  {
    TwoOutInv(x, y);
    var s, answers, tree := TwoOut(x, y), SecondUnread(), [0, 1];
    MoveInvIff(s, 1, tree, answers, []);
    hide Inv, KernelTree, Answered;
    var h0 := Moving(0, 1, s.pages, s.slots, []);
    var h1 := MoveOne(h0, 0, answers);
    assert h1.buffer == x && h1.pages[1] == OutPage(1) && h1.to == 1;
    var h2 := MoveOne(h1, 1, answers);
    assert h2.slots[Slot(1, 1)] == x && h2.pages[1] == OutPage(1);
    assert MoveAll(s, 1, tree, 0, answers, []) == h0;
    assert MoveAll(s, 1, tree, 1, answers, []) == h1;
    assert MoveAll(s, 1, tree, 2, answers, []) == h2;
  }

  function OneOut(x: Data): State {
    State(map[0 := OutPage(0)], map[], map[], Some(0), map[Slot(0, 0) := x])
  }

  function OneAnswer(freeOk: bool, id: nat): map<Pid, MoveAnswer> {
    map[0 := MoveAnswer(true, freeOk, Some(id), [], true)]
  }

  lemma OneMoved(s: State, dev: Dev, freeOk: bool, id: nat)
    requires Moves(s, dev) && s.pages.Keys == {0} && s.pages[0].pagedOut && HasSlot(s, 0)
    ensures var t := DoChange(s, dev, [0], OneAnswer(freeOk, id), []);
            var k, n := Slot(s.provider.value, s.pages[0].swapId), Slot(dev, id);
            t.pages == s.pages[0 := s.pages[0].(swapId := id)] && t.provider == Some(dev) &&
            t.slots == (if freeOk then s.slots - {k} else s.slots)[n := s.slots[k]]
  {
    var answers := OneAnswer(freeOk, id);
    var h0 := Moving(s.provider.value, dev, s.pages, s.slots, []);
    assert MoveAll(s, dev, [0], 0, answers, []) == h0;
    assert MoveAll(s, dev, [0], 1, answers, []) == MoveOne(h0, 0, answers);
  }

  /** A page is moved to another device and back, and the first time its slot is not freed.
      The page has its contents, and the device in use has a slot that is nobody's. */
  lemma SlotLeftBehind(x: Data)
    ensures var s := OneOut(x);
            var t := DoChange(s, 1, [0], OneAnswer(false, 0), []);
            var u := DoChange(t, 0, [0], OneAnswer(true, 1), []);
            Inv(s) && !Inv(t) && Slot(0, 1) !in t.slots && u.provider == Some(0) &&
            0 in u.pages && Content(u, 0) == x && Slot(0, 0) in u.slots && (forall p :: !Owns(u, p, Slot(0, 0))) && !Inv(u)
  {
    hide Inv, DoChange;
    var s := OneOut(x);
    OneOutInv(x);
    OneMoved(s, 1, false, 0);
    var t := DoChange(s, 1, [0], OneAnswer(false, 0), []);
    assert t.slots == map[Slot(0, 0) := x, Slot(1, 0) := x];
    LeftOver(t, Slot(0, 0));
    OneMoved(t, 0, true, 1);
    var u := DoChange(t, 0, [0], OneAnswer(true, 1), []);
    assert u.slots == map[Slot(0, 0) := x, Slot(0, 1) := x];
    LeftOver(u, Slot(0, 0));
  }

  lemma OneOutInv(x: Data)
    ensures Inv(OneOut(x))
  {
    assert Owns(OneOut(x), 0, Slot(0, 0));
  }

  lemma LeftOver(s: State, k: Slot)
    requires k in s.slots && forall p :: !Owns(s, p, k)
    ensures !Inv(s)
  {
  }

  /** Page p has contents that no other page has. */
  ghost function Marked(s: State, p: Pid): State
    requires p in s.pages && s.provider.Some?
  {
    s.(slots := map k | k in s.slots :: if k == Slot(s.provider.value, s.pages[p].swapId) then [1] else [0])
  }

  ghost function Blanked(answers: map<Pid, MoveAnswer>): map<Pid, MoveAnswer> {
    map q | q in answers :: answers[q].(blank := [0])
  }

  /** Only slot k is marked. */
  ghost predicate OnlyMark(s: State, k: Slot) {
    k in s.slots && s.slots[k] == [1] && forall i :: i in s.slots && i != k ==> s.slots[i] == [0]
  }

  ghost predicate Blank(answers: map<Pid, MoveAnswer>) {
    forall q :: q in answers ==> answers[q].blank == [0]
  }

  lemma MarkedLemma(s: State, p: Pid, answers: map<Pid, MoveAnswer>)
    requires Inv(s) && s.provider.Some? && Out(s, p) && Answered(s, answers)
    ensures var s', answers' := Marked(s, p), Blanked(answers);
            SameButData(s, s') && SameButBlank(answers, answers') && Answered(s', answers') &&
            OnlyMark(s', Slot(s.provider.value, s.pages[p].swapId)) && Blank(answers') &&
            (forall q :: Granted(answers', q) <==> Granted(answers, q)) && p in answers &&
            answers'[p] == answers[p].(blank := [0])
  {
    assert Placed(s, p);
  }

  lemma LostThere(s: State, dev: Dev, tree: seq<Pid>, answers: map<Pid, MoveAnswer>, p: Pid)
    requires Inv(s) && Moves(s, dev) && KernelTree(s, tree) && Answered(s, answers) && Out(s, p)
    requires forall q :: Out(s, q) ==> s.pages[q].kernel && Granted(answers, q)
    requires !answers[p].readOk || !answers[p].writeOk
    requires OnlyMark(s, Slot(s.provider.value, s.pages[p].swapId)) && Blank(answers)
    ensures !SameContents(s, DoChange(s, dev, tree, answers, [0]))
  {
    hide Inv, OnlyMark, Blank;
    var k :| 0 <= k < |tree| && tree[k] == p;
    MarkLost(s, dev, tree, answers, k, |tree|);
    var h := MoveAllLemma(s, dev, tree, |tree|, answers, [0]);
    assert tree[..|tree|] == tree;
    var t := Moved(s, dev, tree, answers, [0]);
    assert h.pages[p].swapId == answers[p].slot.value && h.pages[p].pagedOut;
    assert Content(s, p) == [1] && Content(t, p) != [1] by {
      assert s.slots[Slot(s.provider.value, s.pages[p].swapId)] == [1] by {
        TheMark(s, Slot(s.provider.value, s.pages[p].swapId));
      }
    }
  }

  lemma TheMark(s: State, k: Slot)
    requires OnlyMark(s, k)
    ensures k in s.slots && s.slots[k] == [1]
  {
  }

  /** Nothing but slot k is marked. */
  ghost predicate Unmarked(h: Moving, k: Slot) {
    h.buffer != [1] && forall i :: i in h.slots && i != k ==> h.slots[i] != [1]
  }

  lemma MoveUnmarked(h: Moving, q: Pid, answers: map<Pid, MoveAnswer>, k: Slot)
    requires Unmarked(h, k) && q in h.pages && h.pages[q].swapId != k.id && Blank(answers)
    ensures Unmarked(MoveOne(h, q, answers), k)
  {
  }

  lemma OwnSlots(s: State, p: Pid, q: Pid)
    requires Inv(s) && Out(s, p) && Out(s, q) && p != q
    ensures s.pages[p].swapId != s.pages[q].swapId
  {
  }

  lemma StaysPut(h: Moving, p: Pid, answers: map<Pid, MoveAnswer>)
    requires p in h.pages ==> !h.pages[p].pagedOut
    ensures MoveOne(h, p, answers) == h
  {
  }

  lemma {:induction false} MarkBefore(s: State, dev: Dev, tree: seq<Pid>, answers: map<Pid, MoveAnswer>, k: nat, n: nat)
    requires Inv(s) && Moves(s, dev) && KernelTree(s, tree) && Answered(s, answers)
    requires n <= k < |tree| && Out(s, tree[k])
    requires OnlyMark(s, Slot(s.provider.value, s.pages[tree[k]].swapId)) && Blank(answers)
    ensures Unmarked(MoveAll(s, dev, tree, n, answers, [0]), Slot(s.provider.value, s.pages[tree[k]].swapId))
  {
    hide Inv, KernelTree, Answered, MovePages, MoveSlots, MoveContents, MoveOne;
    var mark := Slot(s.provider.value, s.pages[tree[k]].swapId);
    if n > 0 {
      MarkBefore(s, dev, tree, answers, k, n - 1);
      hide OnlyMark, Unmarked, Blank;
      var h := MoveAllLemma(s, dev, tree, n - 1, answers, [0]);
      var q := tree[n - 1];
      NotYet(s, tree, n - 1);
      NotYet(s, tree, k);
      assert q in tree[..k] && q != tree[k];
      Unmoved(s, h, tree[..n - 1], answers, q);
      if Out(s, q) {
        OwnSlots(s, q, tree[k]);
        MoveUnmarked(h, q, answers, mark);
      } else {
        StaysPut(h, q, answers);
      }
    }
  }

  /** With contents of p that are nowhere else, and p not both read and written, the slot p
      gets does not have them. */
  lemma {:induction false} MarkLost(s: State, dev: Dev, tree: seq<Pid>, answers: map<Pid, MoveAnswer>, k: nat, n: nat)
    requires Inv(s) && Moves(s, dev) && KernelTree(s, tree) && Answered(s, answers)
    requires k < n <= |tree| && Out(s, tree[k])
    requires AllGranted(s, tree, answers) && (!answers[tree[k]].readOk || !answers[tree[k]].writeOk)
    requires OnlyMark(s, Slot(s.provider.value, s.pages[tree[k]].swapId)) && Blank(answers)
    ensures Granted(answers, tree[k])
    ensures var h, i := MoveAll(s, dev, tree, n, answers, [0]), Slot(dev, answers[tree[k]].slot.value);
            i in h.slots && h.slots[i] != [1]
  {
    hide Inv, KernelTree, Answered, MoveOne, MovePages, MoveSlots, MoveContents, OnlyMark;
    var p := tree[k];
    NotYet(s, tree, k);
    assert p in tree && Granted(answers, p);
    var h := MoveAllLemma(s, dev, tree, n - 1, answers, [0]);
    Devices(s, h, tree[..n - 1], answers);
    if n - 1 == k {
      MarkBefore(s, dev, tree, answers, k, k);
      Unmoved(s, h, tree[..k], answers, p);
      MarkAt(h, p, answers);
    } else {
      MarkLost(s, dev, tree, answers, k, n - 1);
      var q := tree[n - 1];
      NotYet(s, tree, n - 1);
      assert p in tree[..n - 1] && q != p;
      Unmoved(s, h, tree[..n - 1], answers, q);
      assert Out(s, q) ==> Granted(answers, q);
      if Granted(answers, q) {
        OtherSlot(s, answers, p, q);
      }
      MarkLater(h, q, answers, answers[p].slot.value);
    }
  }

  lemma Devices(s: State, h: Moving, done: seq<Pid>, answers: map<Pid, MoveAnswer>)
    requires MoveSlots(s, h, done, answers)
    ensures s.provider == Some(h.from) && h.from != h.to
  {
  }

  lemma Unmoved(s: State, h: Moving, done: seq<Pid>, answers: map<Pid, MoveAnswer>, q: Pid)
    requires MovePages(s, h, done, answers) && q !in done
    ensures q in s.pages ==> q in h.pages && h.pages[q] == s.pages[q]
    ensures q !in s.pages ==> q !in h.pages
  {
  }

  lemma OtherSlot(s: State, answers: map<Pid, MoveAnswer>, p: Pid, q: Pid)
    requires Answered(s, answers) && p != q && Granted(answers, p) && Granted(answers, q)
    ensures answers[p].slot.value != answers[q].slot.value
  {
  }

  lemma MarkAt(h: Moving, p: Pid, answers: map<Pid, MoveAnswer>)
    requires p in h.pages && h.pages[p].pagedOut && h.from != h.to && Unmarked(h, Slot(h.from, h.pages[p].swapId))
    requires Granted(answers, p) && answers[p].blank == [0] && (!answers[p].readOk || !answers[p].writeOk)
    ensures var t, i := MoveOne(h, p, answers), Slot(h.to, answers[p].slot.value); i in t.slots && t.slots[i] != [1]
  {
  }

  lemma MarkLater(h: Moving, q: Pid, answers: map<Pid, MoveAnswer>, id: nat)
    requires h.from != h.to && Slot(h.to, id) in h.slots && h.slots[Slot(h.to, id)] != [1]
    requires q in h.pages && h.pages[q].pagedOut ==> Granted(answers, q) && answers[q].slot.value != id
    ensures var t, i := MoveOne(h, q, answers), Slot(h.to, id); i in t.slots && t.slots[i] != [1]
  {
  }

  // ---------- the operations ----------

  /** The frame, if there is one; whether the slot is read and freed; and, after one of these
      failed, whether the frame can be released. */
  datatype InAnswers = InAnswers(frame: Option<nat>, readOk: bool, freeOk: bool, releaseOk: bool)

  ghost function DoOut(s: State, p: Pid, a: OutAnswers): (State, Status) {
    if s.provider.None? then (s, NoProvider)
    else if p !in s.pages || s.pages[p].reserved || !s.pages[p].pageable || s.pages[p].workingSets > 0 then (s, InvalidArgument)
    else if Reserved(s, p, a) then AfterReserve(s, p, a)
    else (s, Failed)
  }

  ghost function DoIn(s: State, p: Pid, a: InAnswers): (State, Status) {
    if s.provider.None? then (s, NoProvider)
    else if p !in s.pages || s.pages[p].reserved then (s, InvalidArgument)
    else if !s.pages[p].pageable || !s.pages[p].pagedOut then (s, Ok)
    else if a.frame.None? then (s, Failed)
    else if !HasSlot(s, p) || !a.readOk || !a.freeOk then
      if a.releaseOk then (s, Failed)
      else
        var got := if HasSlot(s, p) && a.readOk then s.slots[Slot(s.provider.value, s.pages[p].swapId)] else [];
        (s.(mem := s.mem[a.frame.value := got]), InternalError)
    else (PagedIn(s, p, a.frame.value), Ok)
  }

  lemma InKeeps(s: State, p: Pid, a: InAnswers)
    requires Inv(s) && (a.frame.Some? ==> FreeFrame(s, a.frame.value))
    ensures Inv(DoIn(s, p, a).0) && SameContents(s, DoIn(s, p, a).0)
    ensures DoIn(s, p, a).1 == Ok && Out(s, p) && s.pages[p].pageable ==> !Out(DoIn(s, p, a).0, p)
  {
    if Out(s, p) && a.frame.Some? {
      assert Placed(s, p);
      PagedInKeeps(s, p, a.frame.value);
      MoreMemory(s, a.frame.value, s.slots[Slot(s.provider.value, s.pages[p].swapId)]);
      MoreMemory(s, a.frame.value, []);
    }
    hide Inv, PagedIn, SameContents;
    assert SameContents(s, s) by {
      SameAsItself(s);
    }
  }

  lemma SameAsItself(s: State)
    ensures SameContents(s, s)
  {
  }

  /** A frame that cannot be given back is lost, and nothing else. */
  lemma MoreMemory(s: State, f: nat, data: Data)
    requires Inv(s) && FreeFrame(s, f)
    ensures Inv(s.(mem := s.mem[f := data])) && SameContents(s, s.(mem := s.mem[f := data]))
  {
    var t := s.(mem := s.mem[f := data]);
    forall p ensures Placed(t, p) && (p in s.pages ==> Content(t, p) == Content(s, p)) {
      assert Placed(s, p);
    }
    forall k | k in t.slots ensures exists q :: Owns(t, q, k) {
      var q :| Owns(s, q, k);
      assert Owns(t, q, k);
    }
  }

  lemma OutThenIn(s: State, p: Pid, a: OutAnswers, b: InAnswers)
    requires Inv(s) && OutBehaved(s, p, a) && p in s.pages && !s.pages[p].pagedOut && DoOut(s, p, a).1 == Ok
    requires b.frame.Some? && b.readOk && b.freeOk && FreeFrame(DoOut(s, p, a).0, b.frame.value)
    ensures var t := DoOut(s, p, a).0; var (u, st) := DoIn(t, p, b);
            st == Ok && u.slots == s.slots && p in u.frames && u.frames[p] in u.mem &&
            u.mem[u.frames[p]] == Content(s, p)
  {
    assert Placed(s, p);
    var t := DoOut(s, p, a).0;
    var k := Slot(s.provider.value, a.slot.value);
    assert t.slots == s.slots[k := s.mem[s.frames[p]]];
    assert t.slots - {k} == s.slots;
  }

  /** A page may leave memory: it is known, not reserved, pageable and in no working set. */
  predicate Evictable(s: State, p: Pid) {
    p in s.pages && !s.pages[p].reserved && s.pages[p].pageable && s.pages[p].workingSets == 0
  }

  /** When a page that is in memory goes out, what each failure comes from, and what going
      out is: the frame is free, and one new slot has what was in it. */
  lemma OutIff(s: State, p: Pid, a: OutAnswers)
    requires Inv(s) && OutBehaved(s, p, a) && (p in s.pages ==> !s.pages[p].pagedOut)
    ensures var (t, st) := DoOut(s, p, a);
            (st == NoProvider <==> s.provider.None?) &&
            (st == InvalidArgument <==> s.provider.Some? && !Evictable(s, p)) &&
            (st == Ok <==> s.provider.Some? && Evictable(s, p) && a.lookup.Some? && a.slot.Some? &&
                           a.writeOk && a.unmapOk && a.releaseOk) &&
            (st == InternalError <==> s.provider.Some? && Evictable(s, p) && a.lookup.Some? && a.slot.Some? &&
                                      !(a.writeOk && a.unmapOk && a.releaseOk) &&
                                      !(a.freeOk && (a.writeOk && a.unmapOk ==> a.remapOk)))
    ensures var (t, st) := DoOut(s, p, a);
            st == Ok ==>
              p in s.frames && p in s.pages && Out(t, p) && t.frames == s.frames - {p} && t.mem == s.mem - {s.frames[p]} &&
              t.slots == s.slots[Slot(s.provider.value, a.slot.value) := Content(s, p)] &&
              t.pages == s.pages[p := s.pages[p].(present := false, swapId := a.slot.value, pagedOut := true)]
  {
    assert Placed(s, p);
  }

  /** When a page comes in, and what that is: the frame has what was in the slot, and the
      slot is free. A page that is not out, or cannot be, is left as it is. */
  lemma InIff(s: State, p: Pid, a: InAnswers)
    requires Inv(s) && (a.frame.Some? ==> FreeFrame(s, a.frame.value))
    ensures var (t, st) := DoIn(s, p, a);
            var known := s.provider.Some? && p in s.pages && !s.pages[p].reserved;
            var back := known && s.pages[p].pageable && s.pages[p].pagedOut;
            (st == NoProvider <==> s.provider.None?) && (st == InvalidArgument <==> s.provider.Some? && !known) &&
            (st == Ok <==> known && (back ==> a.frame.Some? && a.readOk && a.freeOk)) &&
            (st == InternalError <==> back && a.frame.Some? && !(a.readOk && a.freeOk) && !a.releaseOk) &&
            (st != InternalError && !(st == Ok && back) ==> t == s) &&
            (st == Ok && back ==>
               t.frames == s.frames[p := a.frame.value] && t.mem == s.mem[a.frame.value := Content(s, p)] &&
               t.slots == s.slots - {Slot(s.provider.value, s.pages[p].swapId)} &&
               t.pages == s.pages[p := s.pages[p].(present := true, pagedOut := false)])
  {
    assert Placed(s, p);
  }

  // ---------- the present flag ----------

  /** The page's own record of being mapped agrees with the page tables. */
  ghost predicate Agrees(s: State, p: Pid) {
    p in s.pages && (s.pages[p].present <==> p in s.frames)
  }

  /** Swapping out leaves the flag right, whatever it was before, exactly if the page was
      not written at all and it was right, or the page was unmapped or had no frame, and was
      mapped again if its frame and not its slot stayed. */
  lemma OutAgreesIff(s: State, p: Pid, a: OutAnswers)
    requires Inv(s) && OutBehaved(s, p, a) && Reserved(s, p, a)
    ensures Agrees(AfterReserve(s, p, a).0, p) <==>
            if !a.writeOk then Agrees(s, p)
            else (a.unmapOk || p !in s.frames) && (FrameStuck(a) && a.freeOk ==> a.remapOk)
  {
    assert Placed(s, p);
  }

  // ---------- runs ----------

  datatype Step =
    | SwapOut(p: Pid, out: OutAnswers)
    | SwapIn(p: Pid, frame: InAnswers)
    | Change(dev: Dev, tree: seq<Pid>, answers: map<Pid, MoveAnswer>, buffer: Data)

  /** Devices and tables behave, and the conditions of OutKeepsIff and MoveKeepsIff hold. */
  ghost predicate Enabled(s: State, step: Step) {
    match step
    case SwapOut(p, a) => OutBehaved(s, p, a) && (Reserved(s, p, a) ==> OutSafe(s, p, a))
    case SwapIn(p, a) => a.frame.Some? ==> FreeFrame(s, a.frame.value)
    case Change(dev, tree, answers, buffer) =>
      KernelTree(s, tree) && Answered(s, answers) &&
      (Moves(s, dev) ==> forall p :: Out(s, p) ==> s.pages[p].kernel && Carried(answers, p))
  }

  ghost function Exec(s: State, step: Step): State {
    match step
    case SwapOut(p, a) => DoOut(s, p, a).0
    case SwapIn(p, a) => DoIn(s, p, a).0
    case Change(dev, tree, answers, buffer) => DoChange(s, dev, tree, answers, buffer)
  }

  lemma StepKeeps(s: State, step: Step) returns (t: State)
    requires Inv(s) && Enabled(s, step)
    ensures t == Exec(s, step) && Inv(t) && SameContents(s, t)
  {
    hide Inv, SameContents, AfterReserve, DoIn, DoChange, OutSafe;
    t := Exec(s, step);
    SameAsItself(s);
    match step {
      case SwapOut(p, a) =>
        if Reserved(s, p, a) {
          OutKeepsIff(s, p, a);
        }
      case SwapIn(p, a) => InKeeps(s, p, a);
      case Change(dev, tree, answers, buffer) => MoveCarries(s, dev, tree, answers, buffer);
    }
  }

  ghost predicate Reaches(s: State, steps: seq<Step>, t: State)
    decreases |steps|
  {
    if steps == [] then s == t else Enabled(s, steps[0]) && Reaches(Exec(s, steps[0]), steps[1..], t)
  }

  /** Over every run every page keeps its contents, and the reserved slots of all devices
      stay one to one with the pages that are paged out. */
  lemma {:induction false} RunSafety(s: State, steps: seq<Step>, t: State)
    requires Inv(s) && Reaches(s, steps, t)
    ensures Inv(t) && SameContents(s, t)
    decreases |steps|
  {
    hide Inv, Exec, Enabled, Content;
    if steps != [] {
      var u := StepKeeps(s, steps[0]);
      RunSafety(u, steps[1..], t);
    }
  }

  /** The step writes p to a slot and then fails to unmap it. */
  ghost predicate UnmapFails(s: State, step: Step, p: Pid) {
    step.SwapOut? && step.p == p && Reserved(s, p, step.out) && step.out.writeOk && !step.out.unmapOk
  }

  /** The step writes p to a slot, or brings it back. */
  ghost predicate Settles(s: State, step: Step, p: Pid) {
    match step
    case SwapOut(q, a) => q == p && Reserved(s, p, a) && a.writeOk
    case SwapIn(q, a) => q == p && Out(s, p) && !Out(DoIn(s, p, a).0, p)
    case Change(_, _, _, _) => false
  }

  /** After a step the flag of a page is right exactly if the step did not fail to unmap it,
      and set the flag or found it right. */
  lemma StepAgreesIff(s: State, step: Step, p: Pid)
    requires Inv(s) && Enabled(s, step) && p in s.pages
    ensures Agrees(Exec(s, step), p) <==> !UnmapFails(s, step, p) && (Settles(s, step, p) || Agrees(s, p))
  {
    hide Inv, AfterReserve, DoIn, DoChange;
    match step {
      case SwapOut(q, a) =>
        if Reserved(s, q, a) {
          if q == p {
            OutAgreesIff(s, p, a);
            FrameOrNot(s, p, a);
          } else {
            OutOther(s, q, a, p);
          }
        }
      case SwapIn(q, a) => InAgrees(s, q, a, p);
      case Change(dev, tree, answers, buffer) => ChangeAgrees(s, dev, tree, answers, buffer, p);
    }
  }

  lemma FrameOrNot(s: State, p: Pid, a: OutAnswers)
    requires Inv(s) && Reserved(s, p, a) && OutSafe(s, p, a)
    ensures a.writeOk ==> p in s.frames
  {
    assert Placed(s, p);
  }

  lemma OutOther(s: State, q: Pid, a: OutAnswers, p: Pid)
    requires Reserved(s, q, a) && p != q && p in s.pages
    ensures Agrees(AfterReserve(s, q, a).0, p) <==> Agrees(s, p)
  {
  }

  lemma InAgrees(s: State, q: Pid, a: InAnswers, p: Pid)
    requires Inv(s) && p in s.pages
    ensures Agrees(DoIn(s, q, a).0, p) <==> (q == p && Out(s, p) && !Out(DoIn(s, p, a).0, p)) || Agrees(s, p)
  {
    hide Inv;
  }

  lemma ChangeAgrees(s: State, dev: Dev, tree: seq<Pid>, answers: map<Pid, MoveAnswer>, buffer: Data, p: Pid)
    requires Inv(s) && KernelTree(s, tree) && Answered(s, answers) && p in s.pages
    ensures Agrees(DoChange(s, dev, tree, answers, buffer), p) <==> Agrees(s, p)
  {
    hide Inv, MoveAll, MoveSlots, KernelTree, Answered;
    if Moves(s, dev) {
      var h := MoveAllLemma(s, dev, tree, |tree|, answers, buffer);
    }
  }

  /** Any page that is in memory and may be swapped out: its flag is wrong once it cannot be
      unmapped, although contents and slots are in order. */
  lemma FlagLost(s: State, p: Pid, id: nat)
    requires Inv(s) && s.provider.Some? && Slot(s.provider.value, id) !in s.slots
    requires p in s.frames && !s.pages[p].reserved && s.pages[p].pageable && s.pages[p].workingSets == 0
    ensures var step := SwapOut(p, OutAnswers(Some(s.frames[p]), Some(id), [], true, false, true, true, true));
            Enabled(s, step) && Inv(Exec(s, step)) && !Agrees(Exec(s, step), p)
  {
    assert Placed(s, p);
    var step := SwapOut(p, OutAnswers(Some(s.frames[p]), Some(id), [], true, false, true, true, true));
    hide Inv, Exec;
    var t := StepKeeps(s, step);
    StepAgreesIff(s, step, p);
  }

  ghost predicate NoUnmapFails(s: State, steps: seq<Step>, p: Pid)
    decreases |steps|
  {
    steps == [] || (!UnmapFails(s, steps[0], p) && NoUnmapFails(Exec(s, steps[0]), steps[1..], p))
  }

  /** So over every run in which no unmapping of a page fails its flag stays right. */
  lemma {:induction false} RunAgrees(s: State, steps: seq<Step>, t: State, p: Pid)
    requires Inv(s) && Reaches(s, steps, t) && NoUnmapFails(s, steps, p) && Agrees(s, p)
    ensures Agrees(t, p)
    decreases |steps|
  {
    hide Inv, Exec, Enabled, UnmapFails, Settles;
    if steps != [] {
      StepAgreesIff(s, steps[0], p);
      var u := StepKeeps(s, steps[0]);
      RunAgrees(u, steps[1..], t, p);
    }
  }

  class Swapper {
    var pages: map<Pid, Page>
    var frames: map<Pid, nat>
    var mem: map<nat, Data>
    var provider: Option<Dev>
    var slots: map<Slot, Data>

    ghost function St(): State
      reads this
    {
      State(pages, frames, mem, provider, slots)
    }

    method SwapOut(p: Pid, a: OutAnswers) returns (st: Status)
      requires OutBehaved(St(), p, a)
      modifies this
      ensures (St(), st) == DoOut(old(St()), p, a)
    {
      if provider.None? {
        return NoProvider;
      }
      if p !in pages || pages[p].reserved || !pages[p].pageable || pages[p].workingSets > 0 {
        return InvalidArgument;
      }
      if a.lookup.None? || a.slot.None? {
        return Failed;
      }
      var f, k := a.lookup.value, Slot(provider.value, a.slot.value);
      ghost var was := slots;
      slots := slots[k := a.blank];
      if !a.writeOk {
        st := GiveUp(k, a, was);
        return;
      }
      var data := if f in mem then mem[f] else [];
      slots := slots[k := data];
      assert slots == was[k := data];
      pages := pages[p := pages[p].(present := false, swapId := k.id)];
      if !a.unmapOk {
        st := GiveUp(k, a, was);
        return;
      }
      st := Finish(p, f, k, a, was);
      ghost var page := old(pages)[p].(present := false, swapId := k.id);
      assert st == Ok ==> pages == old(pages)[p := page.(pagedOut := true)];
      assert st != Ok && a.freeOk ==> pages == old(pages)[p := page.(present := true)];
    }

    /** The slot just reserved is given back. */
    method GiveUp(k: Slot, a: OutAnswers, ghost was: map<Slot, Data>) returns (st: Status)
      requires k !in was && k in slots && slots == was[k := slots[k]]
      modifies this`slots
      ensures if a.freeOk then slots == was && st == Failed else slots == old(slots) && st == InternalError
    {
      if !a.freeOk {
        return InternalError;
      }
      slots := slots - {k};
      assert slots == was;
      return Failed;
    }

    /** The page is written and unmapped; its frame is released. */
    method Finish(p: Pid, f: nat, k: Slot, a: OutAnswers, ghost was: map<Slot, Data>) returns (st: Status)
      requires p in pages && k !in was && k in slots && slots == was[k := slots[k]] && (p in frames ==> f == frames[p])
      modifies this
      ensures slots == if f != 0 && !a.releaseOk && a.freeOk then was else old(slots)
      ensures provider == old(provider)
      ensures f != 0 && !a.releaseOk ==> mem == old(mem)
      ensures f != 0 && !a.releaseOk && !a.freeOk ==>
                st == InternalError && pages == old(pages) && frames == old(frames) - {p}
      ensures f != 0 && !a.releaseOk && a.freeOk ==>
                pages == old(pages)[p := old(pages)[p].(present := true)] &&
                (a.remapOk ==> st == Failed && frames == old(frames)) &&
                (!a.remapOk ==> st == InternalError && frames == old(frames) - {p})
      ensures f == 0 || a.releaseOk ==>
                st == Ok && pages == old(pages)[p := old(pages)[p].(pagedOut := true)] &&
                frames == old(frames) - {p} && mem == old(mem) - {f}
    {
      ghost var mapped := frames;
      var had := p in frames;
      frames := frames - {p};
      if f != 0 {
        if !a.releaseOk {
          st := GiveUp(k, a, was);
          if st == InternalError {
            return;
          }
          pages := pages[p := pages[p].(present := true)];
          if !a.remapOk {
            return InternalError;
          }
          if had {
            frames := frames[p := f];
          }
          assert frames == mapped;
          return Failed;
        }
      }
      mem := mem - {f};
      pages := pages[p := pages[p].(pagedOut := true)];
      return Ok;
    }

    method SwapIn(p: Pid, a: InAnswers) returns (st: Status)
      requires a.frame.Some? ==> FreeFrame(St(), a.frame.value)
      modifies this
      ensures (St(), st) == DoIn(old(St()), p, a)
    {
      if provider.None? {
        return NoProvider;
      }
      if p !in pages || pages[p].reserved {
        return InvalidArgument;
      }
      if !pages[p].pageable || !pages[p].pagedOut {
        return Ok;
      }
      if a.frame.None? {
        return Failed;
      }
      var k, f := Slot(provider.value, pages[p].swapId), a.frame.value;
      ghost var was := mem;
      mem := mem[f := []];
      if k in slots && a.readOk {
        mem := mem[f := slots[k]];
      }
      assert mem == was[f := if k in slots && a.readOk then slots[k] else []];
      if k !in slots || !a.readOk || !a.freeOk {
        if !a.releaseOk {
          return InternalError;
        }
        mem := mem - {f};
        assert mem == was;
        return Failed;
      }
      slots := slots - {k};
      pages := pages[p := pages[p].(present := true, pagedOut := false)];
      frames := frames[p := f];
      return Ok;
    }

    /** buffer is what the frames hold that pages are moved through. */
    method ChangeProvider(dev: Dev, tree: seq<Pid>, answers: map<Pid, MoveAnswer>, buffer: Data)
      requires Answered(St(), answers)
      modifies this
      ensures St() == DoChange(old(St()), dev, tree, answers, buffer)
    {
      if provider.None? || provider == Some(dev) {
        provider := Some(dev);
        return;
      }
      ghost var s := St();
      var inter, i := buffer, 0;
      while i < |tree|
        invariant i <= |tree| && provider == s.provider
        invariant Moving(provider.value, dev, pages, slots, inter) == MoveAll(s, dev, tree, i, answers, buffer)
        invariant frames == s.frames && mem == s.mem && pages.Keys <= answers.Keys
      {
        var p := tree[i];
        if p in pages && pages[p].pagedOut {
          inter := CarryOver(p, dev, answers[p], inter, answers);
        }
        i := i + 1;
      }
      provider := Some(dev);
    }

    /** One round of the loop, for a page that is out. */
    method CarryOver(p: Pid, dev: Dev, a: MoveAnswer, inter0: Data, ghost answers: map<Pid, MoveAnswer>) returns (inter: Data)
      requires provider.Some? && p in pages && pages[p].pagedOut && p in answers && answers[p] == a
      modifies this`pages, this`slots
      ensures Moving(provider.value, dev, pages, slots, inter) ==
              MoveOne(Moving(provider.value, dev, old(pages), old(slots), inter0), p, answers)
    {
      inter := inter0;
      var k := Slot(provider.value, pages[p].swapId);
      if a.readOk && k in slots {
        inter := slots[k];
      }
      if a.freeOk {
        slots := slots - {k};
      }
      var id := 0;
      if a.slot.Some? {
        id := a.slot.value;
        slots := slots[Slot(dev, id) := a.blank];
      }
      pages := pages[p := pages[p].(swapId := id)];
      if a.writeOk && Slot(dev, id) in slots {
        slots := slots[Slot(dev, id) := inter];
      }
    }
  }
}
