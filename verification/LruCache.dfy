/** The least-recently-used cache: an intrusive doubly linked list over a pool of items. */
module LruCache {
  import opened Basics

  // ----- what the cache is for: items in order of last use

  datatype Entry<Obj> = Entry(id: nat, obj: Obj, tick: int)

  type Entries<Obj> = seq<Entry<Obj>>

  ghost predicate Distinct<Obj>(es: Entries<Obj>) {
    forall i, j :: 0 <= i < j < |es| ==> es[i].id != es[j].id
  }

  ghost predicate Sorted<Obj>(es: Entries<Obj>) {
    forall i, j :: 0 <= i < j < |es| ==> es[i].tick <= es[j].tick
  }

  /** `Touch`: an older tick than the item's is ignored; otherwise the item moves to the end. */
  function Touched<Obj>(es: Entries<Obj>, k: nat, tick: int): Entries<Obj>
    requires k < |es|
  {
    if es[k].tick >= tick then es else Without(es, k) + [es[k].(tick := tick)]
  }

  /** The items before the first one above the bound. */
  function Below<Obj>(es: Entries<Obj>, bound: int): (below: Entries<Obj>)
    ensures below <= es
  {
    if es == [] || bound - es[0].tick < 0 then [] else [es[0]] + Below(es[1..], bound)
  }

  function Kept<Obj>(es: Entries<Obj>, evicts: nat -> bool): Entries<Obj> {
    if es == [] then []
    else if evicts(es[0].id) then Kept(es[1..], evicts)
    else [es[0]] + Kept(es[1..], evicts)
  }

  // ----- the linked list

  datatype Item<Obj> = Item(obj: Obj, tick: int, next: Option<nat>, prev: Option<nat>)

  function At(order: seq<nat>, k: int): Option<nat> {
    if 0 <= k < |order| then Some(order[k]) else None
  }

  /** Both links of the item at place `k` of the list. */
  ghost predicate LinkedAt<Obj>(pool: seq<Item<Obj>>, order: seq<nat>, k: int) {
    0 <= k < |order| ==>
      order[k] < |pool| && pool[order[k]].next == At(order, k + 1) && pool[order[k]].prev == At(order, k - 1)
  }

  /** The links of the pool chain the items of `order`, forwards and backwards. */
  ghost predicate Linked<Obj>(pool: seq<Item<Obj>>, order: seq<nat>) {
    InPool(pool, order) && forall k :: LinkedAt(pool, order, k)
  }

  ghost predicate InPool<Obj>(pool: seq<Item<Obj>>, order: seq<nat>) {
    forall k :: 0 <= k < |order| ==> order[k] < |pool|
  }

  /** Same objects and ticks; links may differ. */
  ghost predicate SameItems<Obj>(was: seq<Item<Obj>>, now: seq<Item<Obj>>) {
    |now| == |was| && forall i :: 0 <= i < |was| ==> now[i].obj == was[i].obj && now[i].tick == was[i].tick
  }

  ghost function ContentsOf<Obj>(pool: seq<Item<Obj>>, order: seq<nat>): (es: Entries<Obj>)
    requires InPool(pool, order)
    ensures |es| == |order|
  {
    seq(|order|, k requires 0 <= k < |order| => Entry(order[k], pool[order[k]].obj, pool[order[k]].tick))
  }

  /** The links after `Attach` of `id` behind `l`. */
  function Behind<Obj>(pool: seq<Item<Obj>>, l: nat, id: nat): seq<Item<Obj>>
    requires l < |pool| && id < |pool|
  {
    var pool1 := pool[id := pool[id].(prev := Some(l))];
    var pool2 := pool1[l := pool1[l].(next := Some(id))];
    pool2[id := pool2[id].(next := None)]
  }

  lemma AttachedLast<Obj>(pool: seq<Item<Obj>>, order: seq<nat>, id: nat)
    requires Linked(pool, order) && NoRepeat(order) && order != [] && id < |pool| && id !in order
    ensures var pool' := Behind(pool, order[|order| - 1], id);
            Linked(pool', order + [id]) && NoRepeat(order + [id]) && SameItems(pool, pool')
  {
    var n := |order| - 1;
    var pool', order' := Behind(pool, order[n], id), order + [id];
    forall k ensures LinkedAt(pool', order', k) {
      assert LinkedAt(pool, order, k);
    }
  }

  lemma AttachedFirst<Obj>(pool: seq<Item<Obj>>, id: nat)
    requires id < |pool| && pool[id].next == None && pool[id].prev == None
    ensures Linked(pool, [id])
  {
  }

  /** The links after `Detach` of `id`; those of `id` itself stay behind. */
  function Around<Obj>(pool: seq<Item<Obj>>, id: nat): seq<Item<Obj>>
    requires id < |pool|
  {
    var p, n := pool[id].prev, pool[id].next;
    var pool1 := if p.Some? && p.value < |pool| then pool[p.value := pool[p.value].(next := n)] else pool;
    if n.Some? && n.value < |pool1| then pool1[n.value := pool1[n.value].(prev := p)] else pool1
  }

  /** What `Detach` meets at the ends of the list. */
  ghost predicate Ends<Obj>(pool: seq<Item<Obj>>, pool': seq<Item<Obj>>, order: seq<nat>, k: nat)
    requires k < |order| && order[k] < |pool|
  {
    && InPool(pool, order) && InPool(pool', order)
    && pool[order[k]].prev == At(order, k - 1) && pool[order[k]].next == At(order, k + 1)
    && (k == 0 && |order| > 1 ==> pool'[order[1]].prev == None)
    && (k == |order| - 1 && |order| > 1 ==> pool'[order[k - 1]].next == None)
  }

  lemma Detached<Obj>(pool: seq<Item<Obj>>, order: seq<nat>, k: nat)
    requires Linked(pool, order) && NoRepeat(order) && k < |order|
    ensures var pool' := Around(pool, order[k]);
            Linked(pool', Without(order, k)) && NoRepeat(Without(order, k)) && SameItems(pool, pool')
            && order[k] !in Without(order, k) && Ends(pool, pool', order, k)
  {
    var pool', order' := Around(pool, order[k]), Without(order, k);
    assert LinkedAt(pool, order, k);
    forall i ensures LinkedAt(pool', order', i) {
      assert LinkedAt(pool, order, if i < k then i else i + 1);
    }
  }

  class Cache<Obj(0)> {
    var pool: seq<Item<Obj>>
    var freeItems: seq<nat>
    var first: Option<nat>
    var last: Option<nat>
    ghost var order: seq<nat>

    /** The links and end pointers describe one list without repetition. */
    ghost predicate Chained()
      reads this
    {
      && Linked(pool, order) && NoRepeat(order)
      && first == At(order, 0) && last == At(order, |order| - 1)
    }

    /** The items outside the list are exactly the free ones. */
    ghost predicate Accounted()
      reads this
    {
      && NoRepeat(freeItems)
      && (forall k :: 0 <= k < |freeItems| ==> freeItems[k] < |pool| && freeItems[k] !in order)
      && (forall id: nat :: id < |pool| ==> id in order || id in freeItems)
    }

    /** The live items form one list; all others are free. */
    ghost predicate Valid()
      reads this
    {
      Chained() && Accounted()
    }

    ghost function Contents(): Entries<Obj>
      requires Chained()
      reads this
    {
      ContentsOf(pool, order)
    }

    constructor ()
      ensures Valid() && Contents() == []
    {
      pool, freeItems, order := [], [], [];
      first, last := None, None;
    }

    /** Links `id` in behind the last item. */
    method Attach(id: nat)
      requires Chained() && id < |pool| && id !in order
      requires order == [] ==> pool[id].next == None && pool[id].prev == None
      modifies this`pool, this`first, this`last, this`order
      ensures Chained() && order == old(order) + [id] && SameItems(old(pool), pool)
    {
      if first.None? {
        first := Some(id);
      }
      if last.None? {
        AttachedFirst(pool, id);
        last := Some(id);
      } else {
        AttachedLast(pool, order, id);
        pool := pool[id := pool[id].(prev := last)];
        pool := pool[last.value := pool[last.value].(next := Some(id))];
        pool := pool[id := pool[id].(next := None)];
        last := Some(id);
      }
      order := order + [id];
    }

    /** Takes the item at place `k` of the list out of it. */
    method Detach(id: nat, ghost k: nat)
      requires Chained() && k < |order| && order[k] == id
      modifies this`pool, this`first, this`last, this`order
      ensures Chained() && order == Without(old(order), k) && id !in order && SameItems(old(pool), pool)
    {
      Detached(pool, order, k);
      hide Linked, SameItems;
      ghost var pool' := Around(pool, id);
      var item := pool[id];
      if item.prev.Some? {
        pool := pool[item.prev.value := pool[item.prev.value].(next := item.next)];
      }
      if item.next.Some? {
        pool := pool[item.next.value := pool[item.next.value].(prev := item.prev)];
      }
      assert pool == pool';
      order := Without(order, k);
      if first == Some(id) {
        first := item.next;
        if first.Some? {
          pool := pool[first.value := pool[first.value].(prev := None)];
        }
      }
      if last == Some(id) {
        last := item.prev;
        if last.Some? {
          pool := pool[last.value := pool[last.value].(next := None)];
        }
      }
      assert pool == pool';
    }

    /** A fresh item, or the one that has been free the longest. */
    method Build() returns (id: nat)
      requires Valid()
      modifies this`pool, this`freeItems
      ensures Chained() && id < |pool| && id !in order && id !in freeItems && NoRepeat(freeItems)
      ensures pool[id].next == None && pool[id].prev == None
      ensures ContentsOf(pool, order) == old(Contents())
      ensures forall k :: 0 <= k < |freeItems| ==> freeItems[k] < |pool| && freeItems[k] !in order
      ensures forall i: nat :: i < |pool| && i != id ==> i in order || i in freeItems
    {
      ghost var pool0 := pool;
      if freeItems == [] {
        id := |pool|;
        var obj: Obj := *;
        pool := pool + [Item(obj, 0, None, None)];
      } else {
        id := freeItems[0];
        freeItems := freeItems[1..];
        pool := pool[id := pool[id].(next := None, prev := None)];
      }
      BuildKeeps(pool0, pool, order, id);
    }

    method Insert(obj: Obj, tick: int) returns (id: nat)
      requires Valid()
      modifies this
      ensures Valid() && OpStep(old(Contents()), InsertOp(id, obj, tick), Contents())
    {
      IdsOf(pool, order);
      id := Build();
      ghost var pool0 := pool;
      pool := pool[id := pool[id].(obj := obj, tick := tick)];
      BuildKeeps(pool0, pool, order, id);
      Attach(id);
    }

    method Touch(id: nat, tick: int)
      requires Valid() && id in order
      modifies this`pool, this`first, this`last, this`order
      ensures Valid() && OpStep(old(Contents()), TouchOp(id, tick), Contents())
    {
      IdsOf(pool, order);
      ghost var k := Place(order, id);
      if pool[id].tick >= tick {
        return;
      }
      ghost var es := Contents();
      assert |es| == |order| && (last == Some(id) ==> k == |order| - 1);
      pool := pool[id := pool[id].(tick := tick)];
      Retick(old(pool), pool, order, k);
      if last == Some(id) {
        LastTouched(es, es[k].(tick := tick));
        return;
      }
      ghost var pool0, order0 := pool, order;
      Detach(id, k);
      Attach(id);
      SameMembers(order0, k, id);
      SameContents(pool0, pool, order0, order, k, id);
    }

    method Free(id: nat)
      requires Valid() && id in order
      modifies this
      ensures Valid() && order == Without(old(order), Place(old(order), id))
      ensures OpStep(old(Contents()), FreeOp(id), Contents())
    {
      IdsOf(pool, order);
      ghost var order0, k := order, Place(order, id);
      Detach(id, k);
      ghost var pool0 := pool;
      pool := pool[id := pool[id].(prev := None, next := None)];
      BuildKeeps(pool0, pool, order, id);
      freeItems := freeItems + [id];
      MembersWithout(order0, k);
      ContentsWithout(old(pool), pool0, order0, k);
    }

    /**
     Visits items from the front until one is above the bound. `evicts` says for which items the callback
     calls `Free`; the iteration goes on from the successor it read before the call.
     */
    method ForEachItemBelow(tick: int, evicts: nat -> bool) returns (visited: seq<nat>)
      requires Valid()
      modifies this
      ensures Valid() && visited == Ids(Below(old(Contents()), tick))
      ensures Contents() == Kept(Below(old(Contents()), tick), evicts) + old(Contents())[|visited|..]
    {
      hide Linked, LinkedAt, Visiting, Below, Kept, Ids, NoRepeat, Without, Cache.Accounted;
      visited := [];
      ghost var all := Contents();
      ghost var kept, rest := [], all;
      VisitStart(all, evicts, tick);
      var cursor := first;
      while cursor.Some?
        invariant Valid() && Contents() == kept + rest && cursor == At(order, |kept|)
        invariant |visited| <= |all| && rest == all[|visited|..] && Visiting(all, visited, kept, evicts, tick)
        decreases |rest|
      {
        var id := cursor.value;
        assert |Contents()| == |order| && rest != [];
        Successor(pool, order, |kept|);
        assert rest[0] == Contents()[|kept|] == all[|visited|];
        if tick - pool[id].tick < 0 {
          VisitEnd(all, visited, kept, evicts, tick);
          return;
        }
        VisitNext(all, visited, kept, evicts, tick);
        cursor := Visit(id, evicts, kept, rest);
        kept := if evicts(id) then kept else kept + [rest[0]];
        visited, rest := visited + [id], rest[1..];
      }
      assert |Contents()| == |order| && rest == [];
      VisitEnd(all, visited, kept, evicts, tick);
    }

    /** Read the successor, then run the callback. */
    method Visit(id: nat, evicts: nat -> bool, ghost kept: Entries<Obj>, ghost rest: Entries<Obj>) returns (next: Option<nat>)
      requires Valid() && Contents() == kept + rest && rest != [] && rest[0].id == id
      modifies this
      ensures Valid() && Contents() == (if evicts(id) then kept else kept + [rest[0]]) + rest[1..]
      ensures next == At(order, if evicts(id) then |kept| else |kept| + 1)
    {
      IdsOf(pool, order);
      hide Linked, Cache.Accounted;
      ghost var k := |kept|;
      assert order[k] == Contents()[k].id;
      PlaceIs(order, k);
      Successor(pool, order, k);
      next := pool[id].next;
      if evicts(id) {
        assert Without(Contents(), k) == kept + rest[1..];
        Free(id);
      } else {
        assert kept + rest == kept + [rest[0]] + rest[1..];
      }
    }
  }

  lemma Successor<Obj>(pool: seq<Item<Obj>>, order: seq<nat>, k: nat)
    requires Linked(pool, order) && k < |order|
    ensures order[k] < |pool| && pool[order[k]].next == At(order, k + 1) == At(Without(order, k), k)
  {
    assert LinkedAt(pool, order, k);
  }

  ghost function Ids<Obj>(es: Entries<Obj>): seq<nat> {
    seq(|es|, k requires 0 <= k < |es| => es[k].id)
  }

  ghost function Place(order: seq<nat>, id: nat): (k: nat)
    requires id in order
    ensures k < |order| && order[k] == id
  {
    if order[0] == id then 0 else Place(order[1..], id) + 1
  }

  lemma IdsOf<Obj>(pool: seq<Item<Obj>>, order: seq<nat>)
    requires InPool(pool, order)
    ensures Ids(ContentsOf(pool, order)) == order
  {
  }

  lemma PlaceIs(order: seq<nat>, k: nat)
    requires NoRepeat(order) && k < |order|
    ensures Place(order, order[k]) == k
  {
  }

  /** How far the iteration over the items `all` has come. */
  ghost predicate Visiting<Obj>(all: Entries<Obj>, visited: seq<nat>, kept: Entries<Obj>, evicts: nat -> bool, tick: int) {
    var n := |visited|;
    && n <= |all| && visited == Ids(all[..n]) && kept == Kept(all[..n], evicts)
    && Below(all, tick) == all[..n] + Below(all[n..], tick)
  }

  lemma VisitStart<Obj>(all: Entries<Obj>, evicts: nat -> bool, tick: int)
    ensures Visiting(all, [], [], evicts, tick)
  {
    assert all[..0] == [] && all[0..] == all && [] + Below(all, tick) == Below(all, tick);
  }

  lemma VisitNext<Obj>(all: Entries<Obj>, visited: seq<nat>, kept: Entries<Obj>, evicts: nat -> bool, tick: int)
    requires Visiting(all, visited, kept, evicts, tick) && |visited| < |all| && all[|visited|].tick <= tick
    ensures var e := all[|visited|];
            Visiting(all, visited + [e.id], if evicts(e.id) then kept else kept + [e], evicts, tick)
  {
    var n := |visited|;
    var e := all[n];
    assert all[..n + 1] == all[..n] + [e] && all[n..][1..] == all[n + 1..];
    KeptAppend(all[..n], [e], evicts);
    var b := Below(all[n + 1..], tick);
    assert Below(all[n..], tick) == [e] + b;
    assert all[..n] + ([e] + b) == all[..n] + [e] + b;
  }

  lemma VisitEnd<Obj>(all: Entries<Obj>, visited: seq<nat>, kept: Entries<Obj>, evicts: nat -> bool, tick: int)
    requires Visiting(all, visited, kept, evicts, tick)
    requires |visited| < |all| ==> all[|visited|].tick > tick
    ensures visited == Ids(Below(all, tick)) && kept == Kept(Below(all, tick), evicts)
  {
    assert Below(all[|visited|..], tick) == [];
    assert Below(all, tick) == all[..|visited|];
  }

  lemma {:induction false} KeptAppend<Obj>(a: Entries<Obj>, b: Entries<Obj>, evicts: nat -> bool)
    ensures Kept(a + b, evicts) == Kept(a, evicts) + Kept(b, evicts)
  {
    if a == [] {
      assert a + b == b;
    } else {
      assert (a + b)[0] == a[0] && (a + b)[1..] == a[1..] + b;
      KeptAppend(a[1..], b, evicts);
    }
  }

  // ----- runs

  /** What `ForEachItemBelow` visits is what it is asked for exactly when no such item lies behind one above the bound. */
  lemma {:induction false} BelowIsAll<Obj>(es: Entries<Obj>, bound: int)
    ensures forall k :: 0 <= k < |Below(es, bound)| ==> es[k].tick <= bound
    ensures (forall k :: 0 <= k < |es| && es[k].tick <= bound ==> k < |Below(es, bound)|)
       <==> (forall i, j :: 0 <= i < j < |es| && es[j].tick <= bound ==> es[i].tick <= bound)
  {
    if es != [] && es[0].tick <= bound {
      BelowIsAll(es[1..], bound);
      assert es == [es[0]] + es[1..];
      var b := Below(es[1..], bound);
      assert forall k :: 0 < k < |es| ==> es[k] == es[1..][k - 1];
    }
  }

  datatype Op<Obj> = InsertOp(id: nat, obj: Obj, tick: int) | TouchOp(id: nat, tick: int) | FreeOp(id: nat)

  ghost predicate Live<Obj>(es: Entries<Obj>, id: nat) {
    id in Ids(es)
  }

  /** The effect of an operation on the list, as the methods promise it. */
  ghost predicate OpStep<Obj>(es: Entries<Obj>, op: Op<Obj>, es': Entries<Obj>) {
    match op
    case InsertOp(id, obj, tick) => !Live(es, id) && es' == es + [Entry(id, obj, tick)]
    case TouchOp(id, tick) => Live(es, id) && es' == Touched(es, Place(Ids(es), id), tick)
    case FreeOp(id) => Live(es, id) && es' == Without(es, Place(Ids(es), id))
  }

  /** A run, whatever its ticks. */
  ghost predicate Steps<Obj>(states: seq<Entries<Obj>>, ops: seq<Op<Obj>>) {
    && |states| == |ops| + 1 && states[0] == []
    && forall k :: 0 <= k < |ops| ==> OpStep(states[k], ops[k], states[k + 1])
  }

  /** A run whose ticks do not run backwards, starting at `now`. */
  ghost predicate Run<Obj>(states: seq<Entries<Obj>>, ops: seq<Op<Obj>>, now: int) {
    && Steps(states, ops)
    && (forall k :: 0 <= k < |ops| ==> !ops[k].FreeOp? ==> ops[k].tick >= now)
    && (forall i, j :: 0 <= i < j < |ops| && !ops[i].FreeOp? && !ops[j].FreeOp? ==> ops[i].tick <= ops[j].tick)
  }

  ghost predicate AllUpTo<Obj>(es: Entries<Obj>, tick: int) {
    forall k :: 0 <= k < |es| ==> es[k].tick <= tick
  }

  lemma OpKeepsSorted<Obj>(es: Entries<Obj>, op: Op<Obj>, es': Entries<Obj>, now: int)
    requires OpStep(es, op, es') && Distinct(es) && Sorted(es) && AllUpTo(es, now)
    requires !op.FreeOp? ==> op.tick >= now
    ensures Distinct(es') && Sorted(es') && AllUpTo(es', if op.FreeOp? then now else op.tick)
  {
    match op
    case InsertOp(id, obj, tick) =>
      NotLive(es, id);
      SortedSnoc(es, Entry(id, obj, tick));
    case TouchOp(id, tick) =>
      var k := Place(Ids(es), id);
      SortedWithout(es, k, now);
      SortedSnoc(Without(es, k), es[k].(tick := tick));
    case FreeOp(id) =>
      SortedWithout(es, Place(Ids(es), id), now);
  }

  lemma NotLive<Obj>(es: Entries<Obj>, id: nat)
    requires !Live(es, id)
    ensures forall k :: 0 <= k < |es| ==> es[k].id != id
  {
    forall k | 0 <= k < |es| ensures es[k].id != id {
      assert Ids(es)[k] == es[k].id;
    }
  }

  lemma SortedSnoc<Obj>(es: Entries<Obj>, e: Entry<Obj>)
    requires Distinct(es) && Sorted(es)
    ensures (forall k :: 0 <= k < |es| ==> es[k].id != e.id && es[k].tick <= e.tick) ==>
      Distinct(es + [e]) && Sorted(es + [e]) && AllUpTo(es + [e], e.tick)
  {
  }

  lemma SortedWithout<Obj>(es: Entries<Obj>, k: nat, now: int)
    requires Distinct(es) && Sorted(es) && k < |es| && AllUpTo(es, now)
    ensures Distinct(Without(es, k)) && Sorted(Without(es, k)) && AllUpTo(Without(es, k), now)
    ensures forall i :: 0 <= i < |es| - 1 ==> Without(es, k)[i].id != es[k].id
  {
  }

  /** An item outside the list may change freely. */
  lemma BuildKeeps<Obj>(pool: seq<Item<Obj>>, pool': seq<Item<Obj>>, order: seq<nat>, id: nat)
    requires Linked(pool, order) && id !in order && |pool| <= |pool'|
    requires forall i :: 0 <= i < |pool| && i != id ==> pool'[i] == pool[i]
    ensures Linked(pool', order) && ContentsOf(pool', order) == ContentsOf(pool, order)
  {
    forall k ensures LinkedAt(pool', order, k) {
      assert LinkedAt(pool, order, k);
    }
  }

  lemma Retick<Obj>(pool: seq<Item<Obj>>, pool': seq<Item<Obj>>, order: seq<nat>, k: nat)
    requires Linked(pool, order) && NoRepeat(order) && k < |order|
    requires exists tick :: pool' == pool[order[k] := pool[order[k]].(tick := tick)]
    ensures Linked(pool', order)
    ensures ContentsOf(pool', order) == ContentsOf(pool, order)[k := Entry(order[k], pool'[order[k]].obj, pool'[order[k]].tick)]
  {
    forall i ensures LinkedAt(pool', order, i) {
      assert LinkedAt(pool, order, i);
    }
  }

  lemma ContentsWithout<Obj>(pool: seq<Item<Obj>>, pool': seq<Item<Obj>>, order: seq<nat>, k: nat)
    requires k < |order| && InPool(pool, order) && InPool(pool', Without(order, k)) && SameItems(pool, pool')
    ensures ContentsOf(pool', Without(order, k)) == Without(ContentsOf(pool, order), k)
  {
  }

  lemma LastTouched<Obj>(es: Entries<Obj>, e: Entry<Obj>)
    requires es != []
    ensures es[|es| - 1 := e] == Without(es, |es| - 1) + [e]
  {
  }

  lemma MembersWithout(order: seq<nat>, k: nat)
    requires k < |order|
    ensures forall i :: i in order ==> i == order[k] || i in Without(order, k)
    ensures forall i :: i in Without(order, k) ==> i in order
  {
  }

  lemma SameMembers(order: seq<nat>, k: nat, id: nat)
    requires k < |order| && order[k] == id
    ensures forall i :: i in order <==> i in Without(order, k) + [id]
  {
    MembersWithout(order, k);
  }

  lemma SameContents<Obj>(pool: seq<Item<Obj>>, pool': seq<Item<Obj>>, order: seq<nat>, order': seq<nat>, k: nat, id: nat)
    requires InPool(pool, order) && InPool(pool', order') && SameItems(pool, pool')
    requires k < |order| && order[k] == id && order' == Without(order, k) + [id]
    ensures ContentsOf(pool', order') == Without(ContentsOf(pool, order), k) + [ContentsOf(pool, order)[k]]
  {
  }

  /**
   In every run with a clock that does not go back, the list is free of repetitions and sorted by tick, so
   that visiting stops behind exactly the items within the bound.
   */
  lemma {:induction false} RunSorted<Obj>(states: seq<Entries<Obj>>, ops: seq<Op<Obj>>, now: int)
    requires Run(states, ops, now)
    ensures Distinct(states[|ops|]) && Sorted(states[|ops|]) && AllUpTo(states[|ops|], LastTick(ops, now))
    decreases |ops|
  {
    if ops != [] {
      var n := |ops| - 1;
      var ops' := ops[..n];
      assert Run(states[..n + 1], ops', now);
      RunSorted(states[..n + 1], ops', now);
      LastTickBelow(ops', ops, now);
      OpKeepsSorted(states[n], ops[n], states[n + 1], LastTick(ops', now));
    }
  }

  ghost function LastTick<Obj>(ops: seq<Op<Obj>>, now: int): int {
    if ops == [] then now
    else if ops[|ops| - 1].FreeOp? then LastTick(ops[..|ops| - 1], now)
    else ops[|ops| - 1].tick
  }

  lemma {:induction false} LastTickBelow<Obj>(front: seq<Op<Obj>>, ops: seq<Op<Obj>>, now: int)
    requires front <= ops && |front| < |ops|
    requires forall k :: 0 <= k < |ops| ==> !ops[k].FreeOp? ==> ops[k].tick >= now
    requires forall i, j :: 0 <= i < j < |ops| && !ops[i].FreeOp? && !ops[j].FreeOp? ==> ops[i].tick <= ops[j].tick
    ensures !ops[|ops| - 1].FreeOp? ==> LastTick(front, now) <= ops[|ops| - 1].tick
    decreases |front|
  {
    if front != [] && front[|front| - 1].FreeOp? { LastTickBelow(front[..|front| - 1], ops, now); }
  }

  /** Visiting stops behind exactly the items within the bound. */
  ghost predicate VisitsAll<Obj>(es: Entries<Obj>, bound: int) {
    forall k :: 0 <= k < |es| ==> (k < |Below(es, bound)| <==> es[k].tick <= bound)
  }

  lemma RunVisitsAll<Obj>(states: seq<Entries<Obj>>, ops: seq<Op<Obj>>, now: int, bound: int)
    requires Run(states, ops, now)
    ensures VisitsAll(states[|ops|], bound)
  {
    RunSorted(states, ops, now);
    BelowIsAll(states[|ops|], bound);
  }

  // ----- exactly when nothing is missed

  /** The tick of an operation is no older than any live item's, or is ignored. */
  ghost predicate Timely<Obj>(es: Entries<Obj>, op: Op<Obj>) {
    match op
    case InsertOp(_, _, tick) => AllUpTo(es, tick)
    case TouchOp(id, tick) => Live(es, id) ==> tick <= es[Place(Ids(es), id)].tick || AllUpTo(es, tick)
    case FreeOp(_) => true
  }

  lemma TimelyExact<Obj>(es: Entries<Obj>, op: Op<Obj>, es': Entries<Obj>)
    requires OpStep(es, op, es') && Sorted(es)
    ensures Sorted(es') <==> Timely(es, op)
  {
    match op
    case InsertOp(id, obj, tick) =>
      SnocExact(es, Entry(id, obj, tick));
    case TouchOp(id, tick) =>
      var k := Place(Ids(es), id);
      if es[k].tick < tick {
        SnocExact(Without(es, k), es[k].(tick := tick));
        AllButOne(es, k, tick);
      }
    case FreeOp(id) =>
      assert Sorted(Without(es, Place(Ids(es), id)));
  }

  lemma SnocExact<Obj>(es: Entries<Obj>, e: Entry<Obj>)
    requires Sorted(es)
    ensures Sorted(es + [e]) <==> AllUpTo(es, e.tick)
  {
    var all := es + [e];
    if Sorted(all) {
      forall k | 0 <= k < |es| ensures es[k].tick <= e.tick {
        assert all[k].tick <= all[|es|].tick;
      }
    }
  }

  lemma AllButOne<Obj>(es: Entries<Obj>, k: nat, tick: int)
    requires k < |es| && es[k].tick < tick
    ensures AllUpTo(Without(es, k), tick) <==> AllUpTo(es, tick)
  {
    var rest := Without(es, k);
    if AllUpTo(rest, tick) {
      forall i | 0 <= i < |es| ensures es[i].tick <= tick {
        if i != k { assert es[i] == rest[if i < k then i else i - 1]; }
      }
    }
  }

  lemma VisitsAllExact<Obj>(es: Entries<Obj>)
    ensures (forall bound :: VisitsAll(es, bound)) <==> Sorted(es)
  {
    forall bound ensures Sorted(es) ==> VisitsAll(es, bound) {
      BelowIsAll(es, bound);
    }
    if forall bound :: VisitsAll(es, bound) {
      forall i, j | 0 <= i < j < |es| ensures es[i].tick <= es[j].tick {
        BelowIsAll(es, es[j].tick);
        assert VisitsAll(es, es[j].tick);
      }
    }
  }

  lemma {:induction false} StepsSorted<Obj>(states: seq<Entries<Obj>>, ops: seq<Op<Obj>>, n: nat)
    requires Steps(states, ops) && n <= |ops|
    requires forall k :: 0 <= k < n ==> Timely(states[k], ops[k])
    ensures Sorted(states[n])
  {
    if n > 0 {
      StepsSorted(states, ops, n - 1);
      TimelyExact(states[n - 1], ops[n - 1], states[n]);
    }
  }

  /** Along a run no visit misses an item within its bound exactly when every tick is timely. */
  lemma RunExact<Obj>(states: seq<Entries<Obj>>, ops: seq<Op<Obj>>)
    requires Steps(states, ops)
    ensures (forall k, bound :: 0 <= k <= |ops| ==> VisitsAll(states[k], bound))
       <==> (forall k :: 0 <= k < |ops| ==> Timely(states[k], ops[k]))
  {
    hide VisitsAll, Timely, Sorted, OpStep;
    if forall k :: 0 <= k < |ops| ==> Timely(states[k], ops[k]) {
      forall k, bound | 0 <= k <= |ops| ensures VisitsAll(states[k], bound) {
        StepsSorted(states, ops, k);
        VisitsAllExact(states[k]);
      }
    }
    if forall k, bound :: 0 <= k <= |ops| ==> VisitsAll(states[k], bound) {
      forall k | 0 <= k < |ops| ensures Timely(states[k], ops[k]) {
        VisitsAllExact(states[k]);
        VisitsAllExact(states[k + 1]);
        TimelyExact(states[k], ops[k], states[k + 1]);
      }
    }
  }

  /** A run whose clock goes back: with bound 3 nothing is visited, though the second item is within it. */
  lemma LateInsertMissed<Obj>(x: Obj, y: Obj)
    ensures var es := [Entry(0, x, 5), Entry(1, y, 3)];
            && Steps([[], [Entry(0, x, 5)], es], [InsertOp(0, x, 5), InsertOp(1, y, 3)])
            && Below(es, 3) == [] && es[1].tick <= 3
  {
    var first, es := [Entry(0, x, 5)], [Entry(0, x, 5), Entry(1, y, 3)];
    assert Ids(first) == [0];
    assert first == [] + [Entry(0, x, 5)] && es == first + [Entry(1, y, 3)];
  }
}
