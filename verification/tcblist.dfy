/** The thread control blocks of runtime.c: the list, its marks, and the map of escape counters. */
module TcbList {
  const FOUR_GB: nat := 0x1_0000_0000

  /** A thread control block, with the fields that the list uses. */
  class Tcb {
    var inside: nat
    var sandboxEscape: nat
    var insyscall: bool
    var next: Tcb?
    var remove: bool

    /** alloc_tcb(): all zero. */
    constructor ()
      ensures inside == 0 && sandboxEscape == 0 && !insyscall && next == null && !remove
    {
      inside, sandboxEscape, insyscall, next, remove := 0, 0, false, null, false;
    }
  }

  /** What remains when the marked elements are removed. */
  function Unmarked<T(==)>(s: seq<T>, marked: set<T>): seq<T> {
    if s == [] then []
    else if s[0] in marked then Unmarked(s[1..], marked)
    else [s[0]] + Unmarked(s[1..], marked)
  }

  /** Exactly the unmarked elements remain. */
  lemma {:induction false} UnmarkedHas<T>(s: seq<T>, marked: set<T>, x: T)
    ensures x in Unmarked(s, marked) <==> x in s && x !in marked
  {
    if s != [] {
      UnmarkedHas(s[1..], marked, x);
      assert s == [s[0]] + s[1..];
    }
  }

  /** They remain in their order, and as often as they were there. */
  lemma {:induction false} UnmarkedCons<T>(x: T, rest: seq<T>, s: seq<T>, marked: set<T>)
    requires s == [x] + rest
    ensures Unmarked(s, marked) == (if x in marked then [] else [x]) + Unmarked(rest, marked)
  {
    assert s[1..] == rest;
  }

  lemma {:induction false} UnmarkedAppend<T>(s: seq<T>, t: seq<T>, marked: set<T>)
    ensures Unmarked(s + t, marked) == Unmarked(s, marked) + Unmarked(t, marked)
  {
    if s == [] {
      assert s + t == t;
    } else {
      var front := s[1..];
      UnmarkedCons(s[0], front, s, marked);
      UnmarkedCons(s[0], front + t, s + t, marked);
      hide Unmarked;
      UnmarkedAppend(front, t, marked);
    }
  }

  /** An element that stands before another still does. */
  lemma {:induction false} UnmarkedOrder<T>(s: seq<T>, marked: set<T>, i: nat, j: nat) returns (k: nat, l: nat)
    requires i < j < |s| && s[i] !in marked && s[j] !in marked
    ensures k < l < |Unmarked(s, marked)|
    ensures Unmarked(s, marked)[k] == s[i] && Unmarked(s, marked)[l] == s[j]
  {
    var a, b, c := s[..i], s[i..j], s[j..];
    assert s == a + b + c && b[0] == s[i] && c[0] == s[j];
    UnmarkedAppend(a + b, c, marked);
    UnmarkedAppend(a, b, marked);
    k, l := |Unmarked(a, marked)|, |Unmarked(a, marked)| + |Unmarked(b, marked)|;
  }

  /** The nodes of a chain, in order. */
  ghost predicate Chain(head: Tcb?, nodes: seq<Tcb>)
    reads nodes
  {
    && head == (if nodes == [] then null else nodes[0])
    && (forall i, j :: 0 <= i && j == i + 1 < |nodes| ==> nodes[i].next == nodes[j])
    && (nodes != [] ==> nodes[|nodes| - 1].next == null)
    && (forall i, j :: 0 <= i < j < |nodes| ==> nodes[i] != nodes[j])
  }

  ghost predicate Marks(nodes: seq<Tcb>, marked: set<Tcb>)
    reads nodes
  {
    forall t :: t in nodes ==> (t.remove <==> t in marked)
  }

  /** The link out of the first part of a chain. */
  lemma ChainLink(head: Tcb?, nodes: seq<Tcb>, kept: seq<Tcb>, rest: seq<Tcb>, n: nat)
    requires Chain(head, nodes) && nodes == kept + rest && |kept| == n + 1
    ensures kept[n].next == if rest == [] then null else rest[0]
  {
    assert nodes[n] == kept[n];
    if rest != [] {
      assert nodes[n + 1] == rest[0];
    }
  }

  /** Taking the block behind another out of a chain. */
  method Unlink(tcb: Tcb, ghost nodes: seq<Tcb>, ghost cut: seq<Tcb>, ghost n: nat)
    requires n + 1 < |nodes| && tcb == nodes[n] && Chain(nodes[0], nodes)
    requires |cut| == |nodes| - 1
    requires forall i :: 0 <= i <= n ==> cut[i] == nodes[i]
    requires forall i, j :: n < i && j == i + 1 < |nodes| ==> cut[i] == nodes[j]
    modifies tcb`next
    ensures Chain(nodes[0], cut)
  {
    assert nodes[n + 1] == tcb.next;
    var p: Tcb := tcb.next;
    tcb.next := p.next;
    assert cut[0] == nodes[0];
    forall i, j | 0 <= i && j == i + 1 < |cut| ensures cut[i].next == cut[j] {
      assert cut[j] == if j <= n then nodes[j] else nodes[j + 1];
      assert cut[i] == if i <= n then nodes[i] else nodes[i + 1];
    }
    assert |cut| - 1 != n ==> cut[|cut| - 1] != tcb;
    forall i, j | 0 <= i < j < |cut| ensures cut[i] != cut[j] {
      assert cut[j] == if j <= n then nodes[j] else nodes[j + 1];
      assert cut[i] == if i <= n then nodes[i] else nodes[i + 1];
    }
  }

  /** One step of the sweep: what is still to come is kept or dropped. */
  lemma {:induction false} Swept<T>(kept: seq<T>, rest: seq<T>, marked: set<T>, goal: seq<T>)
    requires kept != [] && rest != [] && goal == kept[1..] + Unmarked(rest, marked)
    ensures rest[0] in marked ==> goal == kept[1..] + Unmarked(rest[1..], marked)
    ensures rest[0] !in marked ==> goal == (kept + [rest[0]])[1..] + Unmarked(rest[1..], marked)
  {
  }

  /** The blocks are as before, but for their links. */
  twostate predicate Same(all: seq<Tcb>)
    reads all
  {
    SameFields(all) && forall t :: t in all ==> t.remove == old(t.remove)
  }

  /** What belongs to the threads is as before. */
  twostate predicate SameFields(all: seq<Tcb>)
    reads all
  {
    forall t :: t in all ==>
      t.inside == old(t.inside) && t.sandboxEscape == old(t.sandboxEscape) && t.insyscall == old(t.insyscall)
  }

  lemma Ended<T>(kept: seq<T>, rest: seq<T>)
    ensures rest == [] ==> kept + rest == kept && kept[..] == kept
  {
  }

  /** One turn of the loop of remove_tcb_marked(). */
  method SweepStep(head: Tcb, tcb0: Tcb, ghost all: seq<Tcb>, ghost marked: set<Tcb>, ghost kept0: seq<Tcb>,
                   ghost rest: seq<Tcb>, ghost goal: seq<Tcb>) returns (tcb: Tcb, ghost kept: seq<Tcb>)
    requires kept0 != [] && kept0[0] == head && tcb0 == kept0[|kept0| - 1] && tcb0.next != null
    requires Chain(head, kept0 + rest) && Marks(all, marked)
    requires forall t :: t in kept0 + rest ==> t in all
    requires goal == kept0[1..] + Unmarked(rest, marked)
    modifies all
    ensures rest != [] && kept != [] && kept[0] == head && tcb == kept[|kept| - 1]
    ensures Chain(head, kept + rest[1..])
    ensures forall t :: t in kept + rest[1..] ==> t in all
    ensures goal == kept[1..] + Unmarked(rest[1..], marked)
    ensures Same(all)
  {
    tcb, kept := tcb0, kept0;
    ghost var chain, n := kept + rest, |kept| - 1;
    ChainLink(head, chain, kept, rest, n);
    Swept(kept, rest, marked, goal);
    var p: Tcb := tcb.next;
    assert chain[n] == tcb && tcb in chain;
    assert chain[n + 1] == rest[0] && rest[0] in chain;
    if p.remove {
      Unlink(tcb, chain, kept + rest[1..], n);
    } else {
      tcb := p;
      kept := kept + [p];
      assert kept + rest[1..] == chain;
    }
  }

  /** The loop of remove_tcb_marked(), which keeps the head. */
  lemma ChainStarts(head: Tcb, all: seq<Tcb>)
    requires Chain(head, all)
    ensures all != [] && all[0] == head
  {
  }

  lemma UnmarkedNone<T>(marked: set<T>)
    ensures Unmarked([], marked) == []
  {
  }

  method SweepTail(head: Tcb, ghost all: seq<Tcb>, ghost marked: set<Tcb>) returns (ghost kept: seq<Tcb>)
    requires Chain(head, all) && Marks(all, marked)
    modifies all
    ensures kept == [head] + Unmarked(all[1..], marked) && Chain(head, kept)
    ensures (forall t :: t in kept ==> t in all) && Same(all)
  {
    hide Unmarked, Chain;
    var tcb: Tcb := head;
    ChainStarts(head, all);
    ghost var rest: seq<Tcb> := all[1..];
    kept := [head];
    ghost var goal := Unmarked(rest, marked);
    assert kept + rest == all && kept[1..] + goal == goal;
    while tcb.next != null
      invariant kept != [] && kept[0] == head && tcb == kept[|kept| - 1]
      invariant Chain(head, kept + rest)
      invariant forall t :: t in kept + rest ==> t in all
      invariant goal == kept[1..] + Unmarked(rest, marked)
      invariant Same(all)
      decreases |rest|
    {
      tcb, kept := SweepStep(head, tcb, all, marked, kept, rest, goal);
      rest := rest[1..];
    }
    ChainLink(head, kept + rest, kept, rest, |kept| - 1);
    Ended(kept, rest);
    UnmarkedNone(marked);
    assert kept == [head] + kept[1..] && goal == kept[1..];
  }

  ghost function PlaceIn(nodes: seq<Tcb>, userTcb: nat): (k: nat)
    reads nodes
    ensures k <= |nodes| && (k < |nodes| ==> nodes[k].inside == userTcb)
    ensures forall i :: 0 <= i < k ==> nodes[i].inside != userTcb
  {
    if nodes == [] || nodes[0].inside == userTcb then 0 else 1 + PlaceIn(nodes[1..], userTcb)
  }

  method Mark(tcb: Tcb, ghost head: Tcb?, ghost nodes: seq<Tcb>, ghost userTcb: nat)
    requires Chain(head, nodes) && Marks(nodes, {}) && tcb in nodes
    modifies tcb`remove
    ensures Chain(head, nodes) && Marks(nodes, {tcb}) && SameFields(nodes)
    ensures PlaceIn(nodes, userTcb) == old(PlaceIn(nodes, userTcb))
  {
    tcb.remove := true;
  }

  lemma {:induction false} AllUnmarked<T>(s: seq<T>, marked: set<T>)
    ensures forall x :: x in Unmarked(s, marked) <==> x in s && x !in marked
  {
    forall x ensures x in Unmarked(s, marked) <==> x in s && x !in marked {
      UnmarkedHas(s, marked, x);
    }
  }

  /** The keys are exactly the unmarked blocks, and at most one block is marked. */
  ghost predicate Keyed(nodes: seq<Tcb>, marked: set<Tcb>, keys: set<Tcb>) {
    && (forall t :: t in keys ==> t in nodes && t !in marked)
    && (forall t :: t in nodes && t !in marked ==> t in keys)
    && (forall t, u :: t in marked && u in marked ==> t == u)
  }

  lemma KeyedFront(nodes: seq<Tcb>, marked: set<Tcb>, keys: set<Tcb>, tcb: Tcb, longer: seq<Tcb>)
    requires Keyed(nodes, marked, keys) && longer == [tcb] + nodes && tcb !in marked
    ensures Keyed(longer, marked, keys + {tcb})
  {
  }

  lemma KeyedMark(nodes: seq<Tcb>, keys: set<Tcb>, tcb: Tcb)
    requires Keyed(nodes, {}, keys) && tcb in nodes
    ensures Keyed(nodes, {tcb}, keys - {tcb})
  {
  }

  lemma {:induction false} KeyedUnmarked(nodes: seq<Tcb>, marked: set<Tcb>, keys: set<Tcb>, kept: seq<Tcb>)
    requires Keyed(nodes, marked, keys) && kept == Unmarked(nodes, marked)
    ensures Keyed(kept, {}, keys) && forall i :: 0 <= i < |kept| ==> kept[i] in nodes && kept[i] !in marked
  {
    AllUnmarked(nodes, marked);
  }

  /** tcb_list and thread_escape_map. */
  class Registry {
    var tcbList: Tcb?
    var escapes: map<Tcb, nat>
    ghost var nodes: seq<Tcb>
    ghost var marked: set<Tcb>

    ghost predicate Linked()
      reads this, nodes
    {
      Chain(tcbList, nodes) && Marks(nodes, marked)
    }

    /** Every state after set_tcb(): the map has exactly the unmarked blocks as keys, and at most one block is
        marked. */
    ghost predicate Valid()
      reads this, nodes
    {
      && Linked() && nodes != [] && Keyed(nodes, marked, escapes.Keys)
    }

    ghost predicate Unset()
      reads this
    {
      tcbList == null && nodes == [] && escapes == map[] && marked == {}
    }

    constructor ()
      ensures Unset()
    {
      tcbList, escapes, nodes, marked := null, map[], [], {};
    }

    /** set_tcb() of the main thread; outside the sandbox it does not return. */
    method SetTcb(tcb: Tcb, sbTcb: nat) returns (ok: bool)
      requires Unset() && tcb.next == null && !tcb.remove
      modifies this, tcb
      ensures ok <==> sbTcb <= FOUR_GB
      ensures ok ==> Valid() && nodes == [tcb] && marked == {} && escapes == map[tcb := 0] && tcb.inside == sbTcb
    {
      ok := sbTcb <= FOUR_GB;
      if ok {
        tcb.inside := sbTcb;
        tcbList := tcb;
        escapes := escapes[tcb := 0];
        nodes := [tcb];
      }
    }

    /** allocset_tcb(): a new block in front. */
    method AllocsetTcb(sbTcb: nat) returns (ok: bool, tcb: Tcb)
      requires Valid()
      modifies this
      ensures fresh(tcb) && (ok <==> sbTcb <= FOUR_GB)
      ensures ok ==> Valid() && nodes == [tcb] + old(nodes) && marked == old(marked)
      ensures ok ==> escapes == old(escapes)[tcb := 0] && tcb.inside == sbTcb
    {
      tcb := new Tcb();
      ok := sbTcb <= FOUR_GB;
      if ok {
        tcb.inside := sbTcb;
        escapes := escapes[tcb := 0];
        tcb.next := tcbList;
        tcbList := tcb;
        KeyedFront(nodes, marked, old(escapes).Keys, tcb, [tcb] + nodes);
        nodes := [tcb] + nodes;
        assert escapes.Keys == old(escapes).Keys + {tcb};
      }
    }

    /** remove_tcb_marked(): an order-preserving filter of the list. */
    method RemoveTcbMarked()
      requires Linked() && nodes != []
      modifies this`tcbList, this`nodes, nodes
      ensures Linked() && nodes == Unmarked(old(nodes), marked)
      ensures Same(old(nodes))
    {
      ghost var kept := SweepTail(tcbList, nodes, marked);
      nodes := kept;
      if tcbList.remove {
        nodes := nodes[1..];
        tcbList := tcbList.next;
      }
    }


    /** The place of the first block for a user-level control block; the length of the list when there is none. */
    ghost function Place(userTcb: nat): (k: nat)
      reads this, nodes
      ensures k <= |nodes| && (k < |nodes| ==> nodes[k].inside == userTcb)
      ensures forall i :: 0 <= i < k ==> nodes[i].inside != userTcb
    {
      PlaceIn(nodes, userTcb)
    }

    /** The search of free_tcb(). */
    method FindInside(userTcb: nat) returns (tcb: Tcb?, ghost i: nat)
      requires Valid()
      ensures i == Place(userTcb) && tcb == if i < |nodes| then nodes[i] else null
    {
      tcb := tcbList;
      i := 0;
      while tcb != null && tcb.inside != userTcb
        invariant i <= |nodes| && tcb == if i < |nodes| then nodes[i] else null
        invariant forall j :: 0 <= j < i ==> nodes[j].inside != userTcb
        decreases |nodes| - i
      {
        if i + 1 < |nodes| {
          assert nodes[i].next == nodes[i + 1];
        }
        tcb := tcb.next;
        i := i + 1;
      }
    }

    /** The first block that matches is marked and loses its counter. */
    method MarkFirst(userTcb: nat)
      requires Valid() && marked == {}
      modifies this`escapes, this`marked, nodes
      ensures Valid() && nodes == old(nodes) && tcbList == old(tcbList)
      ensures NowMarked(userTcb, old(escapes)) && SameFields(old(nodes))
    {
      ghost var i;
      var tcb: Tcb?;
      tcb, i := FindInside(userTcb);
      if tcb != null {
        MarkOne(tcb, userTcb);
      }
    }

    /** The block is marked and loses its counter. */
    method MarkOne(tcb: Tcb, ghost userTcb: nat)
      requires Valid() && marked == {} && Place(userTcb) < |nodes| && tcb == nodes[Place(userTcb)]
      modifies this`escapes, this`marked, nodes
      ensures Valid() && nodes == old(nodes) && tcbList == old(tcbList)
      ensures NowMarked(userTcb, old(escapes)) && SameFields(old(nodes))
    {
      hide Chain, Keyed, Marks, PlaceIn;
      KeyedMark(nodes, escapes.Keys, tcb);
      Mark(tcb, tcbList, nodes, userTcb);
      escapes := escapes - {tcb};
      marked := {tcb};
      assert escapes.Keys == old(escapes).Keys - {tcb};
    }

    /** The first block of a thread is marked, and only it has lost its counter; without one, nothing changed. */
    ghost predicate NowMarked(userTcb: nat, before: map<Tcb, nat>)
      reads this, nodes
    {
      var k := Place(userTcb);
      if k == |nodes| then marked == {} && escapes == before
      else marked == {nodes[k]} && escapes == before - {nodes[k]}
    }

    /** What was marked goes. */
    method Reclaim()
      requires Valid()
      modifies this`tcbList, this`nodes, this`marked, nodes
      ensures nodes == Unmarked(old(nodes), old(marked)) && marked == {} && SameFields(old(nodes))
      ensures forall i :: 0 <= i < |nodes| ==> nodes[i] in old(nodes)
      ensures tcbList == null <==> nodes == []
      ensures nodes != [] ==> Valid()
    {
      RemoveTcbMarked();
      KeyedUnmarked(old(nodes), marked, escapes.Keys, nodes);
      marked := {};
    }

    /** free_tcb(): what was marked before goes, and the block of the given thread is marked. With nothing left, or
        a block outside the sandbox, the process ends. */
    method FreeTcb(userTcb: nat) returns (ok: bool)
      requires Valid()
      modifies this, nodes
      ensures ok <==> Unmarked(old(nodes), old(marked)) != [] && userTcb <= FOUR_GB
      ensures ok ==> Valid() && nodes == Unmarked(old(nodes), old(marked))
      ensures ok ==> NowMarked(userTcb, old(escapes))
    {
      Reclaim();
      ok := tcbList != null && userTcb <= FOUR_GB;
      if ok {
        MarkFirst(userTcb);
      }
    }

    /** update_thesc(): every counter is saved; the lookups succeed. */
    method UpdateThesc()
      requires Valid()
      modifies this`escapes
      ensures Valid() && escapes.Keys == old(escapes).Keys
      ensures forall t :: t in escapes ==> escapes[t] == t.sandboxEscape
    {
      var tcb := tcbList;
      ghost var i := 0;
      while tcb != null
        invariant i <= |nodes| && tcb == if i < |nodes| then nodes[i] else null
        invariant Valid() && escapes.Keys == old(escapes).Keys
        invariant forall j :: 0 <= j < i && nodes[j] in escapes ==> escapes[nodes[j]] == nodes[j].sandboxEscape
        decreases |nodes| - i
      {
        if !tcb.remove {
          assert tcb in escapes;
          escapes := escapes[tcb := tcb.sandboxEscape];
        }
        if i + 1 < |nodes| {
          assert nodes[i].next == nodes[i + 1];
        }
        tcb := tcb.next;
        i := i + 1;
      }
    }

    /** safe(): whether every thread that is not marked is in a system call or has escaped since its counter was
        saved; the lookups succeed. */
    method Safe() returns (safe: bool)
      requires Valid()
      ensures safe <==> forall t :: t in escapes ==> t.insyscall || t.sandboxEscape != escapes[t]
    {
      var tcb := tcbList;
      ghost var i := 0;
      safe := true;
      while tcb != null && safe
        invariant i <= |nodes|
        invariant safe ==> tcb == if i < |nodes| then nodes[i] else null
        invariant safe ==>
          forall j :: 0 <= j < i && nodes[j] in escapes ==>
            nodes[j].insyscall || nodes[j].sandboxEscape != escapes[nodes[j]]
        invariant !safe ==> exists t :: t in escapes && !t.insyscall && t.sandboxEscape == escapes[t]
        decreases |nodes| - i, safe
      {
        if !tcb.remove {
          assert tcb in escapes;
          if !tcb.insyscall && tcb.sandboxEscape == escapes[tcb] {
            safe := false;
          }
        }
        if safe {
          if i + 1 < |nodes| {
            assert nodes[i].next == nodes[i + 1];
          }
          tcb := tcb.next;
          i := i + 1;
        }
      }
    }
  }
}
