/** The kernel's intrusive circular list, and the three loops and the hand-written splice with which
    the accessory driver moves HID devices between its lists.  Everything here works on the heap:
    `ListHead` objects with mutable `next` and `prev`, updated one pointer at a time. */
module KernelList {

  class ListHead {
    var next: ListHead
    var prev: ListHead

    /** A freshly declared head after INIT_LIST_HEAD. */
    constructor ()
      ensures Ring(this, [])
    {
      next := this;
      prev := this;
    }
  }

  ghost predicate Distinct<T>(s: seq<T>) {
    forall i, j :: 0 <= i < j < |s| ==> s[i] != s[j]
  }

  /** `head` is the anchor of a well-formed ring whose elements, in `next` order, are `nodes`:
      both directions are linked all the way round and no element occurs twice. */
  ghost predicate Ring(head: ListHead, nodes: seq<ListHead>)
    reads head, nodes
  {
    && head !in nodes
    && Distinct(nodes)
    && head.next == (if nodes == [] then head else nodes[0])
    && head.prev == (if nodes == [] then head else nodes[|nodes| - 1])
    && (forall i {:trigger nodes[i].next} :: 0 <= i < |nodes| ==>
          nodes[i].next == if i + 1 < |nodes| then nodes[i + 1] else head)
    && (forall i {:trigger nodes[i].prev} :: 0 <= i < |nodes| ==>
          nodes[i].prev == if i > 0 then nodes[i - 1] else head)
  }

  /** Two rings that share no object. */
  ghost predicate Apart(h1: ListHead, s1: seq<ListHead>, h2: ListHead, s2: seq<ListHead>) {
    && h1 != h2 && h1 !in s2 && h2 !in s1
    && (forall i, j :: 0 <= i < |s1| && 0 <= j < |s2| ==> s1[i] != s2[j])
  }

  function Reversed<T>(s: seq<T>): seq<T> {
    if s == [] then [] else Reversed(s[1..]) + [s[0]]
  }

  method InitListHead(head: ListHead)
    modifies head
    ensures Ring(head, [])
  {
    head.next := head;
    head.prev := head;
  }

  /** list_add: insert `node` right behind the head. */
  method ListAdd(node: ListHead, head: ListHead, ghost nodes: seq<ListHead>)
    requires Ring(head, nodes) && node != head && node !in nodes
    modifies node, head, nodes
    ensures Ring(head, [node] + nodes)
  {
    var next := head.next;
    next.prev := node;
    node.next := next;
    node.prev := head;
    head.next := node;
  }

  /** __list_del_entry: close the ring around the element at position `k`, whose own links stay. */
  method ListDelEntry(node: ListHead, ghost head: ListHead, ghost nodes: seq<ListHead>, ghost k: nat)
    requires Ring(head, nodes) && k < |nodes| && nodes[k] == node
    modifies head, nodes
    ensures Ring(head, nodes[..k] + nodes[k + 1..])
    ensures unchanged(node)
  {
    node.next.prev := node.prev;
    node.prev.next := node.next;
  }

  /** list_del: the same, and the element's links are overwritten with LIST_POISON1 and LIST_POISON2. */
  method ListDel(node: ListHead, poison1: ListHead, poison2: ListHead,
                 ghost head: ListHead, ghost nodes: seq<ListHead>, ghost k: nat)
    requires Ring(head, nodes) && k < |nodes| && nodes[k] == node
    modifies head, nodes
    ensures Ring(head, nodes[..k] + nodes[k + 1..])
    ensures node.next == poison1 && node.prev == poison2
  {
    ListDelEntry(node, head, nodes, k);
    ghost var rest := nodes[..k] + nodes[k + 1..];
    assert node !in rest && node != head;
    node.next := poison1;
    node.prev := poison2;
  }

  /** list_move: unlink from one ring, insert at the front of another. */
  method ListMove(node: ListHead, ghost from: ListHead, ghost nodes: seq<ListHead>, ghost k: nat,
                  to: ListHead, ghost others: seq<ListHead>)
    requires Ring(from, nodes) && k < |nodes| && nodes[k] == node
    requires Ring(to, others) && Apart(from, nodes, to, others)
    modifies from, nodes, to, others
    ensures Ring(from, nodes[..k] + nodes[k + 1..])
    ensures Ring(to, [node] + others)
  {
    ListDelEntry(node, from, nodes, k);
    ghost var rest := nodes[..k] + nodes[k + 1..];
    assert Apart(from, rest, to, others);
    assert node !in rest && node !in others;
    ListAdd(node, to, others);
  }

  /** The hand-written splice in acc_hid_work: the device's whole dead list moves to the worker's
      local head, in the same order, and the device is left with an empty ring. */
  method SpliceDead(devDead: ListHead, local: ListHead, ghost nodes: seq<ListHead>)
    requires Ring(devDead, nodes) && local != devDead && local !in nodes
    modifies devDead, local, nodes
    ensures Ring(local, nodes)
    ensures Ring(devDead, [])
  {
    if devDead.next == devDead {
      InitListHead(local);
    } else {
      local.prev := devDead.prev;
      local.next := devDead.next;
      local.next.prev := local;
      local.prev.next := local;
      InitListHead(devDead);
    }
  }

  /** One loop of kill_all_hid_devices: walk `list` with list_for_each_safe, unlinking every element
      and pushing it on the front of `dead`. */
  method MoveAllToDead(list: ListHead, dead: ListHead, ghost nodes: seq<ListHead>, ghost deadNodes: seq<ListHead>)
    requires Ring(list, nodes) && Ring(dead, deadNodes) && Apart(list, nodes, dead, deadNodes)
    modifies list, nodes, dead, deadNodes
    ensures Ring(list, [])
    ensures Ring(dead, Reversed(nodes) + deadNodes)
  {
    hide Reversed, Ring, Apart, Distinct;
    ghost var frame := (set i | 0 <= i < |nodes| :: nodes[i]) + (set i | 0 <= i < |deadNodes| :: deadNodes[i]);
    ghost var rest, moved := nodes, deadNodes;
    ScanBegins(list, nodes, dead, deadNodes, frame);
    var entry := list.next;
    while entry != list
      invariant Reversed(rest) + moved == Reversed(nodes) + deadNodes
      invariant Scan(list, [], rest, dead, moved, frame) && list !in rest
      invariant entry == First(rest, list)
      decreases |rest|
    {
      ScanNext(list, [], rest, dead, moved, frame);
      var temp := entry.next;
      ReversedStep(rest, moved);
      ScanMove(entry, list, [], rest, dead, moved, frame);
      rest, moved := rest[1..], [entry] + moved;
      entry := temp;
    }
    NoneReversed<ListHead>();
    assert rest == [] && [] + moved == moved;
    ScanEnds(list, [], dead, moved, frame);
  }

  lemma NoneReversed<T>()
    ensures Reversed<T>([]) == []
  {
  }

  /** The elements of `s` that satisfy `p`, in order. */
  function Select<T>(s: seq<T>, p: T -> bool): seq<T> {
    if s == [] then [] else (if p(s[0]) then [s[0]] else []) + Select(s[1..], p)
  }

  /** The first loop of acc_hid_work: walk the new list and move every device whose descriptor is
      complete to the front of the worker's local list.  The others stay, in order. */
  method MoveReady(list: ListHead, local: ListHead, ready: ListHead -> bool, ghost nodes: seq<ListHead>)
    requires Ring(list, nodes) && Ring(local, []) && Apart(list, nodes, local, [])
    modifies list, nodes, local
    ensures Ring(list, Select(nodes, x => !ready(x)))
    ensures Ring(local, Reversed(Select(nodes, ready)))
  {
    ghost var stay := x => !ready(x);
    ghost var frame := set i | 0 <= i < |nodes| :: nodes[i];
    ghost var kept, rest, moved := [], nodes, [];
    assert kept + rest == nodes;
    assert Reversed(Select(rest, ready)) + moved == Reversed(Select(nodes, ready));
    var entry := list.next;
    while entry != list
      invariant kept + Select(rest, stay) == Select(nodes, stay)
      invariant Reversed(Select(rest, ready)) + moved == Reversed(Select(nodes, ready))
      invariant Scan(list, kept, rest, local, moved, frame)
      invariant entry == First(rest, list)
      decreases |rest|
    {
      ScanNext(list, kept, rest, local, moved, frame);
      var temp := entry.next;
      SelectStep(kept, rest, stay);
      if ready(entry) {
        SelectReverseStep(rest, moved, ready);
        ScanMove(entry, list, kept, rest, local, moved, frame);
        rest, moved := rest[1..], [entry] + moved;
      } else {
        assert Select(rest, ready) == Select(rest[1..], ready);
        kept, rest := kept + [rest[0]], rest[1..];
      }
      entry := temp;
    }
    assert kept + rest == kept && [] + moved == moved;
  }

  /** A device that is added stands somewhere behind one that was not. */
  ghost predicate Late<T>(s: seq<T>, added: T -> bool) {
    exists i, j :: 0 <= i < j < |s| && !added(s[i]) && added(s[j])
  }

  /** The middle loop of acc_hid_work: a device that is added moves to the front of the live list; one that is not is
      freed and stays linked.  `freed` are the freed elements; `touched` says whether a list_move has written to one
      (the memory is taken to keep its contents). */
  method RegisterLoop(list: ListHead, live: ListHead, added: ListHead -> bool,
                      ghost nodes: seq<ListHead>, ghost liveNodes: seq<ListHead>)
    returns (ghost freed: seq<ListHead>, ghost touched: bool)
    requires Ring(list, nodes) && Ring(live, liveNodes) && Apart(list, nodes, live, liveNodes)
    modifies list, nodes, live, liveNodes
    ensures freed == Select(nodes, Not(added))
    ensures Ring(live, Reversed(Select(nodes, added)) + liveNodes)
    ensures touched <==> Late(nodes, added)
  {
    hide Walked, Late, Reversed, Select, Ring, Apart, Distinct;
    ghost var frame := (set i | 0 <= i < |nodes| :: nodes[i]) + (set i | 0 <= i < |liveNodes| :: liveNodes[i]);
    ghost var done, rest, moved := [], nodes, liveNodes;
    freed, touched := [], false;
    WalkBegins(added, liveNodes);
    ScanBegins(list, nodes, live, liveNodes, frame);
    var entry := list.next;
    while entry != list
      invariant done + rest == nodes && Walked(done, freed, moved, touched, added, liveNodes)
      invariant Scan(list, freed, rest, live, moved, frame) && list !in rest
      invariant entry == First(rest, list)
      decreases |rest|
    {
      ScanNext(list, freed, rest, live, moved, frame);
      var temp := entry.next;
      WalkStep(done, freed, moved, touched, added, liveNodes, entry);
      assert (done + [entry]) + rest[1..] == done + rest;
      if added(entry) {
        ghost var hit := MoveBeside(entry, list, freed, rest, live, moved, frame);
        touched := touched || hit;
        rest, moved := rest[1..], [entry] + moved;
      } else {
        freed, rest := freed + [entry], rest[1..];
      }
      done := done + [entry];
      entry := temp;
    }
    assert done == nodes;
    WalkEnds(done, freed, moved, touched, added, liveNodes, list, live, frame);
  }

  /** list_move of the element at the walk, whose neighbours it writes to; `hit` is whether one of them is freed. */
  method MoveBeside(entry: ListHead, ghost list: ListHead, ghost freed: seq<ListHead>, ghost rest: seq<ListHead>,
                    local: ListHead, ghost moved: seq<ListHead>, ghost frame: set<ListHead>) returns (ghost hit: bool)
    requires Scan(list, freed, rest, local, moved, frame) && rest != [] && rest[0] == entry
    modifies list, freed + rest, local, moved
    ensures Scan(list, freed, rest[1..], local, [entry] + moved, frame)
    ensures hit <==> freed != []
  {
    Neighbours(list, freed, rest, local, moved, frame);
    hit := entry.prev in freed || entry.next in freed;
    ScanMove(entry, list, freed, rest, local, moved, frame);
  }

  function Not<T>(p: T -> bool): T -> bool { x => !p(x) }

  /** What the walk has done to the elements `done`. */
  ghost predicate Walked(done: seq<ListHead>, freed: seq<ListHead>, moved: seq<ListHead>, touched: bool,
                         added: ListHead -> bool, liveNodes: seq<ListHead>)
  {
    && freed == Select(done, Not(added))
    && moved == Reversed(Select(done, added)) + liveNodes
    && (touched <==> Late(done, added))
  }

  lemma WalkBegins(added: ListHead -> bool, liveNodes: seq<ListHead>)
    ensures Walked([], [], liveNodes, false, added, liveNodes)
  {
    assert [] + liveNodes == liveNodes;
  }

  lemma WalkStep(done: seq<ListHead>, freed: seq<ListHead>, moved: seq<ListHead>, touched: bool,
                 added: ListHead -> bool, liveNodes: seq<ListHead>, x: ListHead)
    requires Walked(done, freed, moved, touched, added, liveNodes)
    ensures if added(x) then Walked(done + [x], freed, [x] + moved, touched || freed != [], added, liveNodes)
            else Walked(done + [x], freed + [x], moved, touched, added, liveNodes)
  {
    hide Select, Reversed, Late;
    SelectSnoc(done, x, added);
    SelectSnoc(done, x, Not(added));
    LateSnoc(done, x, added);
    ReversedSnoc(Select(done, added), x, liveNodes);
    assert freed + [] == freed && Select(done, added) + [] == Select(done, added);
  }

  lemma WalkEnds(done: seq<ListHead>, freed: seq<ListHead>, moved: seq<ListHead>, touched: bool,
                 added: ListHead -> bool, liveNodes: seq<ListHead>,
                 list: ListHead, live: ListHead, frame: set<ListHead>)
    requires Walked(done, freed, moved, touched, added, liveNodes) && Scan(list, freed, [], live, moved, frame)
    ensures freed == Select(done, Not(added)) && (touched <==> Late(done, added))
    ensures Ring(live, Reversed(Select(done, added)) + liveNodes)
  {
  }

  lemma ScanEnds(list: ListHead, kept: seq<ListHead>, local: ListHead, moved: seq<ListHead>, frame: set<ListHead>)
    requires Scan(list, kept, [], local, moved, frame)
    ensures Ring(list, kept) && Ring(local, moved)
  {
    assert kept + [] == kept;
  }

  lemma ScanBegins(list: ListHead, nodes: seq<ListHead>, live: ListHead, liveNodes: seq<ListHead>, frame: set<ListHead>)
    requires Ring(list, nodes) && Ring(live, liveNodes) && Apart(list, nodes, live, liveNodes)
    requires Within(nodes, frame) && Within(liveNodes, frame)
    ensures Scan(list, [], nodes, live, liveNodes, frame)
    ensures list.next == First(nodes, list) && list !in nodes
  {
    assert [] + nodes == nodes;
  }

  /** The element before the walk is the last freed one; the one behind it is not freed. */
  lemma Neighbours(list: ListHead, kept: seq<ListHead>, rest: seq<ListHead>,
                   local: ListHead, moved: seq<ListHead>, frame: set<ListHead>)
    requires Scan(list, kept, rest, local, moved, frame) && rest != []
    ensures rest[0].prev in kept <==> kept != []
    ensures rest[0].next !in kept
  {
    var all := kept + rest;
    assert all[|kept|] == rest[0];
    if kept != [] { assert all[|kept| - 1] == kept[|kept| - 1]; }
    if |rest| > 1 { assert all[|kept| + 1] == rest[1]; }
    forall i | 0 <= i < |kept| ensures kept[i] != rest[0].next && kept[i] != list {
      assert all[i] == kept[i];
    }
  }

  lemma {:induction false} SelectSnoc<T>(s: seq<T>, x: T, p: T -> bool)
    ensures Select(s + [x], p) == Select(s, p) + (if p(x) then [x] else [])
  {
    if s == [] {
      assert [] + [x] == [x] && [x][1..] == [];
    } else {
      assert (s + [x])[1..] == s[1..] + [x];
      SelectSnoc(s[1..], x, p);
    }
  }

  lemma {:induction false} SelectsSome<T>(s: seq<T>, p: T -> bool)
    ensures Select(s, p) != [] <==> exists i :: 0 <= i < |s| && p(s[i])
  {
    if s != [] {
      SelectsSome(s[1..], p);
      assert forall i :: 0 <= i < |s| - 1 ==> s[1..][i] == s[i + 1];
      assert forall i :: 0 < i < |s| ==> s[i] == s[1..][i - 1];
    }
  }

  lemma LateSnoc<T>(s: seq<T>, x: T, added: T -> bool)
    ensures Late(s + [x], added) <==> Late(s, added) || (added(x) && Select(s, Not(added)) != [])
  {
    var t := s + [x];
    SelectsSome(s, Not(added));
    if Late(s, added) {
      var i, j :| 0 <= i < j < |s| && !added(s[i]) && added(s[j]);
      assert !added(t[i]) && added(t[j]);
    }
    if added(x) && Select(s, Not(added)) != [] {
      var i :| 0 <= i < |s| && !added(s[i]);
      assert !added(t[i]) && added(t[|s|]);
    }
  }

  lemma {:induction false} ReversedSnoc<T>(s: seq<T>, x: T, tail: seq<T>)
    ensures Reversed(s + [x]) + tail == [x] + (Reversed(s) + tail)
  {
    if s == [] {
      assert [] + [x] == [x] && [x][1..] == [];
      assert Reversed([x]) == Reversed([]) + [x];
    } else {
      assert (s + [x])[1..] == s[1..] + [x];
      ReversedSnoc(s[1..], x, [s[0]] + tail);
      assert Reversed(s + [x]) + tail == Reversed(s[1..] + [x]) + ([s[0]] + tail);
      assert Reversed(s) + tail == Reversed(s[1..]) + ([s[0]] + tail);
    }
  }

  ghost function First(s: seq<ListHead>, head: ListHead): ListHead {
    if s == [] then head else s[0]
  }

  /** The walk is between `kept` and `rest`; `moved` is what has gone to the local list. */
  ghost predicate Scan(list: ListHead, kept: seq<ListHead>, rest: seq<ListHead>,
                       local: ListHead, moved: seq<ListHead>, frame: set<ListHead>)
    reads list, kept + rest, local, moved
  {
    && Within(kept + rest, frame) && Within(moved, frame)
    && Ring(list, kept + rest) && Ring(local, moved) && Apart(list, kept + rest, local, moved)
  }

  lemma ScanNext(list: ListHead, kept: seq<ListHead>, rest: seq<ListHead>,
                 local: ListHead, moved: seq<ListHead>, frame: set<ListHead>)
    requires Scan(list, kept, rest, local, moved, frame) && rest != []
    ensures rest[0].next == First(rest[1..], list)
    ensures Scan(list, kept + [rest[0]], rest[1..], local, moved, frame)
  {
    assert (kept + rest)[|kept|] == rest[0];
    assert (kept + [rest[0]]) + rest[1..] == kept + rest;
  }

  method ScanMove(entry: ListHead, ghost list: ListHead, ghost kept: seq<ListHead>, ghost rest: seq<ListHead>,
                  local: ListHead, ghost moved: seq<ListHead>, ghost frame: set<ListHead>)
    requires Scan(list, kept, rest, local, moved, frame) && rest != [] && rest[0] == entry
    modifies list, kept + rest, local, moved
    ensures Scan(list, kept, rest[1..], local, [entry] + moved, frame)
  {
    StillApart(list, kept, rest, local, moved);
    ListMove(entry, list, kept + rest, |kept|, local, moved);
    assert Ring(list, kept + rest[1..]);
    assert forall i :: 0 <= i < |kept + rest[1..]| ==> (kept + rest[1..])[i] in frame;
  }

  /** The last loop of acc_hid_work: unlink the local dead list element by element.  `visited` are
      the elements in the order in which the loop destroys them. */
  method Drain(local: ListHead, poison1: ListHead, poison2: ListHead, ghost nodes: seq<ListHead>)
    returns (visited: seq<ListHead>)
    requires Ring(local, nodes)
    modifies local, nodes
    ensures visited == nodes
    ensures Ring(local, [])
  {
    ghost var frame := set i | 0 <= i < |nodes| :: nodes[i];
    ghost var rest := nodes;
    visited := [];
    var entry := local.next;
    while entry != local
      invariant visited + rest == nodes
      invariant Ring(local, rest) && Within(rest, frame)
      invariant entry == First(rest, local)
      decreases |rest|
    {
      var temp := entry.next;
      Shift(visited, rest);
      ListDel(entry, poison1, poison2, local, rest, 0);
      visited, rest := visited + [entry], rest[..0] + rest[1..];
      entry := temp;
    }
  }

  /** acc_hid_get: the first element, in list order, that matches. */
  method FindFirst(list: ListHead, matches: ListHead -> bool, ghost nodes: seq<ListHead>) returns (found: ListHead?)
    requires Ring(list, nodes)
    ensures found == null ==> forall i :: 0 <= i < |nodes| ==> !matches(nodes[i])
    ensures found != null ==> exists k :: 0 <= k < |nodes| && nodes[k] == found && matches(found)
                                          && forall i :: 0 <= i < k ==> !matches(nodes[i])
  {
    ghost var k := 0;
    var entry := list.next;
    while entry != list
      invariant 0 <= k <= |nodes|
      invariant entry == if k < |nodes| then nodes[k] else list
      invariant forall i :: 0 <= i < k ==> !matches(nodes[i])
      decreases |nodes| - k
    {
      if matches(entry) {
        return entry;
      }
      entry := entry.next;
      k := k + 1;
    }
    found := null;
  }

  /** Every element of `s` is one of the elements the caller handed over. */
  ghost predicate Within(s: seq<ListHead>, frame: set<ListHead>) {
    forall i :: 0 <= i < |s| ==> s[i] in frame
  }

  lemma StillApart(list: ListHead, kept: seq<ListHead>, rest: seq<ListHead>, local: ListHead, moved: seq<ListHead>)
    requires |rest| > 0 && Distinct(kept + rest) && list !in kept + rest
    requires Apart(list, kept + rest, local, moved)
    ensures (kept + rest)[..|kept|] + (kept + rest)[|kept| + 1..] == kept + rest[1..]
    ensures Apart(list, kept + rest[1..], local, [rest[0]] + moved)
  {
    assert (kept + rest)[|kept|] == rest[0];
  }

  lemma Shift<T>(done: seq<T>, rest: seq<T>)
    requires |rest| > 0
    ensures (done + [rest[0]]) + (rest[..0] + rest[1..]) == done + rest
  {
  }

  lemma SelectStep<T>(kept: seq<T>, rest: seq<T>, p: T -> bool)
    requires |rest| > 0
    ensures kept + Select(rest, p) ==
            (if p(rest[0]) then kept + [rest[0]] else kept) + Select(rest[1..], p)
  {
  }

  lemma SelectReverseStep<T>(rest: seq<T>, moved: seq<T>, p: T -> bool)
    requires |rest| > 0 && p(rest[0])
    ensures Reversed(Select(rest[1..], p)) + ([rest[0]] + moved) == Reversed(Select(rest, p)) + moved
  {
    ReversedStep(Select(rest, p), moved);
    assert Select(rest, p)[1..] == Select(rest[1..], p);
  }

  lemma ReversedStep<T>(rest: seq<T>, moved: seq<T>)
    requires |rest| > 0
    ensures Reversed(rest[1..]) + ([rest[0]] + moved) == Reversed(rest) + moved
  {
    assert Reversed(rest[1..]) + ([rest[0]] + moved) == (Reversed(rest[1..]) + [rest[0]]) + moved;
  }

  lemma {:induction false} ReversedLength<T>(s: seq<T>)
    ensures |Reversed(s)| == |s|
  {
    if s != [] {
      ReversedLength(s[1..]);
    }
  }

  /** What Reversed means, position by position. */
  lemma {:induction false} ReversedAt<T>(s: seq<T>, i: nat)
    requires i < |s|
    ensures |Reversed(s)| == |s| && Reversed(s)[i] == s[|s| - 1 - i]
  {
    if |s| > 1 {
      ReversedAt(s[1..], if i < |s| - 1 then i else 0);
    }
  }
}
