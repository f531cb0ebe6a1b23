/**
  The intrusive doubly linked list of libdvbsub: cListObject carries the links, cListBase the two ends and the
  count. A chain is the sequence of objects that a walk meets, forward along next and backward along prev.
 */
module ListBase {
  class ListObject {
    var prev: ListObject?
    var next: ListObject?
    /** What Compare looks at. */
    const key: int

    constructor (key: int)
      ensures prev == null && next == null && this.key == key
    {
      this.key := key;
      prev, next := null, null;
    }

    method Append(item: ListObject)
      modifies this`next, item`prev
      ensures next == item && item.prev == this
    {
      next := item;
      item.prev := this;
    }

    method Insert(item: ListObject)
      modifies this`prev, item`next
      ensures prev == item && item.next == this
    {
      prev := item;
      item.next := this;
    }

    /** Takes the object out of the chain it belongs to. */
    method Unlink(ghost s: seq<ListObject>, ghost k: nat)
      requires Chain(s) && k < |s| && s[k] == this
      modifies s
      ensures Chain(Without(s, k))
      ensures next == null && prev == null
    {
      hide Distinct;
      assert prev == Before(s, k) && next == From(s, k + 1);
      Apart(s, k);
      if k > 0 { Apart(s, k - 1); }
      if k + 1 < |s| { Apart(s, k + 1); }
      if next != null {
        next.prev := prev;
      }
      if prev != null {
        prev.next := next;
      }
      next, prev := null, null;
      Closed(s, k);
    }

    /** The position in the chain the object belongs to. */
    method Index(ghost s: seq<ListObject>, ghost k: nat) returns (i: nat)
      requires Chain(s) && k < |s| && s[k] == this
      ensures i == k
    {
      hide Distinct;
      var p := prev;
      i := 0;
      while p != null
        invariant 0 <= i <= k
        invariant p == Before(s, k - i)
        decreases k - i
      {
        assert s[k - i - 1].prev == Before(s, k - i - 1);
        i := i + 1;
        p := p.prev;
      }
    }
  }

  // ----- chains

  function Before(s: seq<ListObject>, i: nat): ListObject?
    requires i <= |s|
  {
    if i == 0 then null else s[i - 1]
  }

  function From(s: seq<ListObject>, i: nat): ListObject?
    requires i <= |s|
  {
    if i == |s| then null else s[i]
  }

  predicate Distinct(s: seq<ListObject>) {
    forall i, j :: 0 <= i < j < |s| ==> s[i] != s[j]
  }

  lemma Apart(s: seq<ListObject>, k: nat)
    requires k < |s| && Distinct(s)
    ensures forall i :: 0 <= i < |s| && i != k ==> s[i] != s[k]
  {
  }

  ghost predicate Chain(s: seq<ListObject>)
    reads s
  {
    && Distinct(s)
    && forall i :: 0 <= i < |s| ==> s[i].prev == Before(s, i) && s[i].next == From(s, i + 1)
  }

  lemma {:induction false} Forward(s: seq<ListObject>, t: seq<ListObject>, n: nat)
    requires Chain(s) && Chain(t) && 0 < n <= |s| && n <= |t| && s[0] == t[0]
    ensures s[..n] == t[..n]
    ensures |s| == n <==> |t| == n
  {
    hide Distinct;
    if n > 1 {
      Forward(s, t, n - 1);
      assert s[n - 2] == s[..n - 1][n - 2] == t[..n - 1][n - 2] == t[n - 2];
    }
    assert s[n - 1] == t[n - 1];
  }

  lemma {:induction false} Backward(s: seq<ListObject>, t: seq<ListObject>, n: nat)
    requires Chain(s) && Chain(t) && 0 < n <= |s| && n <= |t| && s[|s| - 1] == t[|t| - 1]
    ensures s[|s| - n..] == t[|t| - n..]
    ensures |s| == n <==> |t| == n
  {
    hide Distinct;
    if n > 1 {
      Backward(s, t, n - 1);
      assert s[|s| - n + 1] == s[|s| - n + 1..][0] == t[|t| - n + 1..][0] == t[|t| - n + 1];
    }
    assert s[|s| - n] == t[|t| - n];
  }

  /** A chain is determined by its first object, and just as well by its last. */
  lemma WalksAgree(s: seq<ListObject>, t: seq<ListObject>)
    requires Chain(s) && Chain(t) && |s| > 0 && |t| > 0
    ensures s == t <==> s[0] == t[0]
    ensures s == t <==> s[|s| - 1] == t[|t| - 1]
  {
    var n := if |s| < |t| then |s| else |t|;
    if s[0] == t[0] {
      Forward(s, t, n);
      assert s[..|s|] == s && t[..|t|] == t;
    }
    if s[|s| - 1] == t[|t| - 1] {
      Backward(s, t, n);
      assert s[0..] == s && t[0..] == t;
    }
  }

  function Without(s: seq<ListObject>, k: nat): seq<ListObject>
    requires k < |s|
  {
    s[..k] + s[k + 1..]
  }

  function With(s: seq<ListObject>, k: nat, x: ListObject): seq<ListObject>
    requires k <= |s|
  {
    s[..k] + [x] + s[k..]
  }

  /** The object at k is bypassed in both directions. */
  lemma Closed(s: seq<ListObject>, k: nat)
    requires k < |s| && Distinct(s)
    requires forall i :: 0 <= i < |s| && i != k ==>
      && s[i].prev == (if i == k + 1 then Before(s, k) else Before(s, i))
      && s[i].next == (if i + 1 == k then From(s, k + 1) else From(s, i + 1))
    ensures Chain(Without(s, k))
  {
    var t := Without(s, k);
    forall i | 0 <= i < |t| ensures t[i].prev == Before(t, i) && t[i].next == From(t, i + 1) {
      assert t[i] == if i < k then s[i] else s[i + 1];
    }
  }

  /** The object x is linked in before position k in both directions. */
  lemma Opened(s: seq<ListObject>, k: nat, x: ListObject)
    requires k <= |s| && Distinct(s) && x !in s
    requires x.prev == Before(s, k) && x.next == From(s, k)
    requires forall i :: 0 <= i < |s| ==>
      && s[i].prev == (if i == k then x else Before(s, i))
      && s[i].next == (if i + 1 == k then x else From(s, i + 1))
    ensures Chain(With(s, k, x))
  {
    var t := With(s, k, x);
    forall i | 0 <= i < |t| ensures t[i].prev == Before(t, i) && t[i].next == From(t, i + 1) {
      if i != k {
        assert t[i] == if i < k then s[i] else s[i - 1];
      }
    }
  }

  lemma LinksOf(s: seq<ListObject>, k: nat)
    requires k < |s| && Chain(s)
    ensures s[k].prev == Before(s, k) && s[k].next == From(s, k + 1) && Distinct(s)
  {
  }

  /** The links at the place where an object is to go in, and which places are the ends. */
  lemma Around(s: seq<ListObject>, k: nat)
    requires k <= |s| && Chain(s)
    ensures k > 0 ==> s[k - 1].next == From(s, k)
    ensures k < |s| ==> s[k].prev == Before(s, k)
    ensures |s| > 0 ==> s[0].prev == null && s[|s| - 1].next == null
    ensures 0 < k < |s| ==> s[k] != s[0] && s[k - 1] != s[|s| - 1]
    ensures 0 < k < |s| ==> s[k - 1] != s[k]
  {
  }

  /** Everything else in the chain is linked as it was and stays clear of the two neighbours. */
  lemma Elsewhere(s: seq<ListObject>, k: nat)
    requires k <= |s| && Chain(s)
    ensures forall i :: 0 <= i < |s| && i != k && i + 1 != k ==>
      && s[i] != Before(s, k) && s[i] != From(s, k)
      && s[i].prev == Before(s, i) && s[i].next == From(s, i + 1)
    ensures k < |s| ==> s[k].next == From(s, k + 1)
    ensures k > 0 ==> s[k - 1].prev == Before(s, k - 1)
    ensures Distinct(s)
  {
    hide Distinct;
    if k > 0 { Apart(s, k - 1); }
    if k < |s| { Apart(s, k); }
  }

  /** Link the object in between two neighbours. */
  method LinkBetween(left: ListObject, item: ListObject, right: ListObject, ghost s: seq<ListObject>, ghost k: nat)
    requires Chain(s) && item !in s && 0 < k < |s| && s[k - 1] == left && s[k] == right
    modifies left, right, item
    ensures Chain(With(s, k, item)) && item.prev == left
  {
    hide Chain;
    Around(s, k);
    Elsewhere(s, k);
    right.Insert(item);
    left.Append(item);
    Opened(s, k, item);
  }

  /** Link the object in behind the last one. */
  method LinkLast(last: ListObject, item: ListObject, ghost s: seq<ListObject>)
    requires Chain(s) && item !in s && item.next == null && |s| > 0 && s[|s| - 1] == last
    modifies last, item
    ensures Chain(With(s, |s|, item)) && item.prev == last
  {
    hide Chain;
    Around(s, |s|);
    Elsewhere(s, |s|);
    last.Append(item);
    Opened(s, |s|, item);
  }

  /** Link the object in before the first one. */
  method LinkFirst(first: ListObject, item: ListObject, ghost s: seq<ListObject>)
    requires Chain(s) && item !in s && item.prev == null && |s| > 0 && s[0] == first
    modifies first, item
    ensures Chain(With(s, 0, item)) && item.prev == null
  {
    hide Chain;
    Around(s, 0);
    Elsewhere(s, 0);
    first.Insert(item);
    Opened(s, 0, item);
  }

  lemma Single(item: ListObject)
    requires item.prev == null && item.next == null
    ensures Chain([item]) && With([], 0, item) == [item]
  {
  }

  /** The two ends once the object at i is taken out. */
  lemma RemovalEnds(s: seq<ListObject>, i: nat)
    requires i < |s| && Chain(s)
    ensures From(Without(s, i), 0) == if s[i] == s[0] then s[i].next else s[0]
    ensures Before(Without(s, i), |s| - 1) == if s[i] == s[|s| - 1] then s[i].prev else s[|s| - 1]
  {
    hide Distinct;
    Apart(s, i);
  }

  /** What follows another object. */
  lemma RemovalOrder(s: seq<ListObject>, i: nat)
    requires i < |s| && Chain(s)
    ensures s[i] !in Without(s, i)
    ensures forall j :: i < j < |s| ==> From(Without(s, i), j) == s[j].next
    ensures forall j :: 0 <= j < i ==> From(Without(s, i), j) == s[j]
  {
    hide Distinct;
    Apart(s, i);
  }

  lemma Removal(s: seq<ListObject>, i: nat)
    requires i < |s| && Chain(s)
    ensures Distinct(s)
    ensures From(Without(s, i), 0) == if s[i] == s[0] then s[i].next else s[0]
    ensures Before(Without(s, i), |s| - 1) == if s[i] == s[|s| - 1] then s[i].prev else s[|s| - 1]
    ensures s[i] !in Without(s, i)
    ensures forall j :: i < j < |s| ==> From(Without(s, i), j) == s[j].next
    ensures forall j :: 0 <= j < i ==> From(Without(s, i), j) == s[j]
  {
    RemovalEnds(s, i);
    RemovalOrder(s, i);
    hide Without;
    hide From;
    hide Before;
  }

  ghost function IndexOf(s: seq<ListObject>, x: ListObject): (k: nat)
    requires x in s
    ensures k < |s| && s[k] == x
  {
    if s[0] == x then 0 else 1 + IndexOf(s[1..], x)
  }

  lemma OnlyAt(s: seq<ListObject>, k: nat)
    requires k < |s| && Distinct(s)
    ensures IndexOf(s, s[k]) == k
  {
    Apart(s, k);
  }

  /** Moving the object at i so that it ends up at position j. */
  function Moved(s: seq<ListObject>, i: nat, j: nat): seq<ListObject>
    requires i < |s| && j < |s|
  {
    With(Without(s, i), j, s[i])
  }

  /** A move changes one object's position, keeps the order of all others, and is undone by the reverse move. */
  lemma MovedBack(s: seq<ListObject>, i: nat, j: nat)
    requires i < |s| && j < |s|
    ensures Moved(s, i, j)[j] == s[i] && Without(Moved(s, i, j), j) == Without(s, i)
    ensures Moved(Moved(s, i, j), j, i) == s
    ensures multiset(Moved(s, i, j)) == multiset(s)
  {
    var t := Without(s, i);
    assert Without(Moved(s, i, j), j) == t;
    assert With(t, i, s[i]) == s;
    OneMore(t, j, s[i]);
    OneMore(t, i, s[i]);
  }

  lemma OneMore(t: seq<ListObject>, j: nat, x: ListObject)
    requires j <= |t|
    ensures multiset(With(t, j, x)) == multiset(t) + multiset{x}
  {
    assert t == t[..j] + t[j..];
    assert multiset(t) == multiset(t[..j]) + multiset(t[j..]);
  }

  predicate Sorted(s: seq<ListObject>) {
    forall i, j :: 0 <= i < j < |s| ==> s[i].key <= s[j].key
  }

  predicate Disjoint(s: seq<ListObject>, t: seq<ListObject>) {
    forall i :: 0 <= i < |s| ==> s[i] !in t
  }

  lemma AllDistinct(s: seq<ListObject>)
    requires Chain(s)
    ensures Distinct(s)
  {
  }

  lemma EmptyChain()
    ensures Chain([])
  {
  }

  lemma {:induction false} PermutationIsDistinct(s: seq<ListObject>, t: seq<ListObject>)
    requires Distinct(s) && multiset(s) == multiset(t)
    ensures Distinct(t) && |s| == |t|
  {
    AtMostOnce(s);
    assert |multiset(s)| == |s| && |multiset(t)| == |t|;
    OnceIsDistinct(t);
  }

  lemma {:induction false} AtMostOnce(s: seq<ListObject>)
    requires Distinct(s)
    ensures forall x :: x in s ==> multiset(s)[x] == 1
  {
    if s != [] {
      assert s == [s[0]] + s[1..];
      AtMostOnce(s[1..]);
    }
  }

  lemma {:induction false} OnceIsDistinct(s: seq<ListObject>)
    requires forall x :: x in s ==> multiset(s)[x] == 1
    ensures Distinct(s)
  {
    forall i, j | 0 <= i < j < |s| ensures s[i] != s[j] {
      assert s == s[..j] + s[j..];
      assert multiset(s) == multiset(s[..j]) + multiset(s[j..]);
      assert s[..j][i] in multiset(s[..j]) && s[j..][0] in multiset(s[j..]);
      assert multiset(s[..j])[s[i]] >= 1 && multiset(s[j..])[s[j]] >= 1;
      assert multiset(s)[s[i]] == 1 by {
        assert s[i] in s;
      }
    }
  }

  lemma RemovedOne(s: seq<ListObject>, k: nat, t: seq<ListObject>)
    requires k < |s| && multiset(s) == multiset([s[k]] + t)
    ensures multiset(Without(s, k)) == multiset(t)
  {
    var x := s[k];
    var front, back := s[..k], s[k + 1..];
    assert s == front + ([x] + back);
    assert multiset(front + ([x] + back)) == multiset(front) + multiset([x] + back);
    assert multiset([x] + back) == multiset([x]) + multiset(back);
    assert multiset(front + back) == multiset(front) + multiset(back);
    assert multiset([x] + t) == multiset([x]) + multiset(t);
    assert multiset(s) - multiset([x]) == multiset(front + back);
    assert multiset([x] + t) - multiset([x]) == multiset(t);
  }

  /** What is already in the new chain is not in the old one. */
  lemma Unshared(rest: seq<ListObject>, a: seq<ListObject>, i: nat)
    requires i < |a| && Distinct(a) && multiset(rest) == multiset(a[i..])
    ensures Disjoint(a[..i], rest)
    ensures a[i] !in a[..i]
    ensures forall j :: 0 <= j < |rest| ==> rest[j] in a
  {
    SameObjects(rest, a[i..]);
  }

  /** Unlinking from one chain leaves another one alone. */
  method UnlinkApart(item: ListObject, ghost rest: seq<ListObject>, ghost k: nat, ghost other: seq<ListObject>)
    requires Chain(rest) && k < |rest| && rest[k] == item
    requires Chain(other) && Disjoint(other, rest)
    modifies rest
    ensures Chain(Without(rest, k)) && Chain(other)
    ensures item.prev == null && item.next == null
  {
    hide Chain;
    item.Unlink(rest, k);
    Kept(other);
  }

  twostate lemma Kept(s: seq<ListObject>)
    requires old(Chain(s)) && forall i :: 0 <= i < |s| ==> unchanged(s[i])
    ensures Chain(s)
  {
  }

  lemma SameObjects(s: seq<ListObject>, t: seq<ListObject>)
    requires multiset(s) == multiset(t)
    ensures forall x :: x in s <==> x in t
    ensures forall i :: 0 <= i < |s| ==> s[i] in t
  {
    forall x ensures x in s <==> x in t {
      assert x in multiset(s) <==> x in multiset(t);
    }
  }

  // ----- the list

  class List {
    var objects: ListObject?
    var lastObject: ListObject?
    var count: int
    ghost var nodes: seq<ListObject>

    /** The links, both ends and both directions, spell nodes. */
    ghost predicate Linked()
      reads this, nodes
    {
      Chain(nodes) && objects == From(nodes, 0) && lastObject == Before(nodes, |nodes|)
    }

    ghost predicate Valid()
      reads this, nodes
    {
      Linked() && count == |nodes|
    }

    constructor ()
      ensures Valid() && nodes == []
    {
      objects, lastObject, count, nodes := null, null, 0, [];
    }

    method Add(item: ListObject, after: ListObject?)
      requires Linked() && item !in nodes && item.prev == null && item.next == null
      requires after == null || after in nodes
      modifies this, nodes, item
      ensures Linked() && count == old(count) + 1
      ensures nodes == With(old(nodes), if after == null then |old(nodes)| else IndexOf(old(nodes), after) + 1, item)
    {
      hide Chain;
      ghost var s := nodes;
      ghost var k := if after == null then |s| else IndexOf(s, after) + 1;
      Around(s, k);
      if after != null && after != lastObject {
        LinkBetween(after, item, after.next, s, k);
      } else {
        if lastObject != null {
          LinkLast(lastObject, item, s);
        } else {
          Single(item);
          objects := item;
        }
        lastObject := item;
      }
      count := count + 1;
      nodes := With(s, k, item);
    }

    method Ins(item: ListObject, before: ListObject?)
      requires Linked() && item !in nodes && item.prev == null && item.next == null
      requires before == null || before in nodes
      modifies this, nodes, item
      ensures Linked() && count == old(count) + 1
      ensures nodes == With(old(nodes), if before == null then 0 else IndexOf(old(nodes), before), item)
    {
      hide Chain;
      ghost var s := nodes;
      ghost var k := if before == null then 0 else IndexOf(s, before);
      Around(s, k);
      if before != null && before != objects {
        LinkBetween(before.prev, item, before, s, k);
      } else {
        if objects != null {
          LinkFirst(objects, item, s);
        } else {
          Single(item);
          lastObject := item;
        }
        objects := item;
      }
      count := count + 1;
      nodes := With(s, k, item);
    }

    /** The count goes down only when the object is deleted as well. */
    method Del(item: ListObject, deleteObject: bool)
      requires Linked() && item in nodes
      modifies this, nodes
      ensures Linked() && nodes == Without(old(nodes), IndexOf(old(nodes), item))
      ensures item.prev == null && item.next == null
      ensures count == old(count) - if deleteObject then 1 else 0
    {
      hide Chain;
      ghost var s := nodes;
      ghost var k := IndexOf(s, item);
      LinksOf(s, k);
      Apart(s, k);
      if item == objects {
        objects := item.next;
      }
      if item == lastObject {
        lastObject := item.prev;
      }
      item.Unlink(s, k);
      nodes := Without(s, k);
      if deleteObject {
        count := count - 1;
      }
    }

    method Get(index: int) returns (item: ListObject?)
      requires Linked()
      ensures item == if 0 <= index < |nodes| then nodes[index] else null
    {
      hide Distinct;
      if index < 0 {
        return null;
      }
      var left := index;
      item := objects;
      while item != null && left > 0
        invariant 0 <= left <= index
        invariant item == if index - left < |nodes| then nodes[index - left] else null
        decreases left
      {
        left := left - 1;
        item := item.next;
      }
    }

    /** Move; an object that is moved onto itself drops out of the list, linked to itself, and the count stays. */
    method MoveObject(from: ListObject, to: ListObject)
      requires Linked() && from in nodes && to in nodes
      modifies this, nodes
      ensures Linked() && count == old(count)
      ensures var s := old(nodes);
        nodes == if from == to then Without(s, IndexOf(s, from)) else Moved(s, IndexOf(s, from), IndexOf(s, to))
      ensures from == to ==> from !in nodes && from.next == from && from.prev == from
    {
      hide Chain;
      hide Distinct;
      ghost var i, j := IndexOf(nodes, from), IndexOf(nodes, to);
      ghost var t := Without(nodes, i);
      var target := TakeOut(from, to, i, j);
      if target == from {
        from.Append(from);
        nodes := t;
      } else {
        PutBack(from, target, t, j);
      }
    }

    /** The first half of Move: take the object out and find the one that it is to stand in front of. */
    method TakeOut(from: ListObject, to: ListObject, ghost i: nat, ghost j: nat) returns (target: ListObject?)
      requires Linked() && i < |nodes| && j < |nodes| && nodes[i] == from && nodes[j] == to
      modifies this`objects, this`lastObject, nodes
      ensures var t := Without(nodes, i);
        && Chain(t) && objects == From(t, 0) && lastObject == Before(t, |t|)
        && from !in t && from.prev == null && from.next == null
        && if i == j then target == from else j <= |t| && target == From(t, j)
    {
      hide Chain;
      ghost var t := Without(nodes, i);
      LinksOf(nodes, i);
      LinksOf(nodes, j);
      Removal(nodes, i);
      var fromIndex := from.Index(nodes, i);
      var toIndex := to.Index(nodes, j);
      target := to;
      if fromIndex < toIndex {
        target := to.next;
      }
      if from == objects {
        objects := from.next;
      }
      if from == lastObject {
        lastObject := from.prev;
      }
      assert i != j ==> target == From(t, j);
      assert objects == From(t, 0) && lastObject == Before(t, |t|);
      from.Unlink(nodes, i);
    }

    /** The second half of Move: link the object in before the target, or behind the last one. */
    method PutBack(from: ListObject, target: ListObject?, ghost t: seq<ListObject>, ghost j: nat)
      requires Chain(t) && objects == From(t, 0) && lastObject == Before(t, |t|)
      requires |t| > 0 && j <= |t| && target == From(t, j)
      requires from !in t && from.prev == null && from.next == null
      modifies this, t, from
      ensures Linked() && nodes == With(t, j, from) && count == old(count)
    {
      hide Chain;
      Around(t, j);
      if target != null {
        if target.prev != null {
          LinkBetween(target.prev, from, target, t, j);
        } else {
          LinkFirst(target, from, t);
        }
      } else {
        LinkLast(lastObject, from, t);
        lastObject := from;
      }
      if from.prev == null {
        objects := from;
      }
      nodes := With(t, j, from);
    }

    /** Move by positions; nothing happens unless both exist. */
    method Move(from: int, to: int)
      requires Linked()
      modifies this, nodes
      ensures Linked() && count == old(count)
      ensures nodes == if !(0 <= from < |old(nodes)| && 0 <= to < |old(nodes)|) then old(nodes)
                       else if from == to then Without(old(nodes), from)
                       else Moved(old(nodes), from, to)
    {
      hide Chain;
      hide Moved;
      var f := Get(from);
      var t := Get(to);
      if f != null && t != null {
        AllDistinct(nodes);
        OnlyAt(nodes, from);
        OnlyAt(nodes, to);
        Apart(nodes, from);
        MoveObject(f, t);
      }
    }

    method Clear()
      requires Linked()
      modifies this
      ensures Valid() && nodes == []
    {
      ghost var i := 0;
      while objects != null
        invariant 0 <= i <= |nodes| && nodes == old(nodes) && Chain(nodes)
        invariant objects == From(nodes, i)
        decreases |nodes| - i
      {
        objects := objects.next;
        i := i + 1;
      }
      objects, lastObject, count, nodes := null, null, 0, [];
    }

    /** Copy the list into an array of so many slots. */
    method Collect(n: nat) returns (a: seq<ListObject>)
      requires Linked() && n <= |nodes|
      ensures a == nodes[..n]
    {
      hide Distinct;
      a := [];
      var item := objects;
      while item != null && |a| < n
        invariant |a| <= n && a == nodes[..|a|]
        invariant item == From(nodes, |a|)
        decreases n - |a|
      {
        a := a + [item];
        item := item.next;
      }
    }

    /** Adding at the end leaves alone whatever is linked elsewhere. */
    method AddApart(item: ListObject, ghost other: seq<ListObject>)
      requires Linked() && item !in nodes && item.prev == null && item.next == null
      requires Chain(other) && item !in other && Disjoint(other, nodes)
      modifies this, nodes, item
      ensures Linked() && count == old(count) + 1 && nodes == old(nodes) + [item]
      ensures Chain(other)
    {
      hide Chain;
      Add(item, null);
      Kept(other);
    }

    /** Take the object out of the old chain and add it to the list. */
    method Requeue(item: ListObject, ghost rest: seq<ListObject>, ghost k: nat)
      requires Linked() && Chain(rest) && k < |rest| && rest[k] == item
      requires Disjoint(nodes, rest)
      modifies this, nodes, rest
      ensures Linked() && nodes == old(nodes) + [item] && count == old(count)
      ensures Chain(Without(rest, k))
    {
      hide Chain;
      Removal(rest, k);
      UnlinkApart(item, rest, k, nodes);
      assert Disjoint(Without(rest, k), nodes);
      count := count - 1;
      AddApart(item, Without(rest, k));
    }

    /** One round of the second loop of Sort: from the old chain, rest, to the new one. */
    method RequeueAt(a: seq<ListObject>, i: nat, ghost rest: seq<ListObject>) returns (ghost rest': seq<ListObject>)
      requires Linked() && i < |a| && Distinct(a) && nodes == a[..i]
      requires Chain(rest) && multiset(rest) == multiset(a[i..])
      modifies this, a
      ensures Linked() && nodes == a[..i + 1] && count == old(count)
      ensures Chain(rest') && multiset(rest') == multiset(a[i + 1..])
    {
      hide Chain;
      assert a[i..] == [a[i]] + a[i + 1..];
      assert a[i] in multiset(rest);
      ghost var k := IndexOf(rest, a[i]);
      Unshared(rest, a, i);
      RemovedOne(rest, k, a[i + 1..]);
      rest' := Without(rest, k);
      assert forall j :: 0 <= j < |rest| ==> rest[j] in a;
      assert forall j :: 0 <= j < |nodes| ==> nodes[j] in a;
      Requeue(a[i], rest, k);
      assert a[..i + 1] == a[..i] + [a[i]];
    }

    /** The second loop of Sort. */
    method RequeueAll(a: seq<ListObject>, ghost before: seq<ListObject>)
      requires Chain(before) && Distinct(a) && multiset(before) == multiset(a)
      requires Linked() && nodes == []
      modifies this, a
      ensures Linked() && nodes == a && count == old(count)
    {
      hide Chain;
      hide Distinct;
      ghost var rest := before;
      assert a[0..] == a;
      var i := 0;
      while i < |a|
        invariant 0 <= i <= |a|
        invariant Linked() && nodes == a[..i] && count == old(count)
        invariant Chain(rest) && multiset(rest) == multiset(a[i..])
      {
        rest := RequeueAt(a, i, rest);
        i := i + 1;
      }
      assert a[..|a|] == a;
    }

    /**
      qsort belongs to the C library: it enters as any function that permutes its argument into an order in
      which Compare is never positive.
     */
    method Sort(qsort: seq<ListObject> -> seq<ListObject>)
      requires Valid()
      requires multiset(qsort(nodes)) == multiset(nodes) && Sorted(qsort(nodes))
      modifies this, nodes
      ensures Valid() && nodes == qsort(old(nodes))
    {
      hide Chain;
      ghost var before := nodes;
      var n := count;
      var a := Collect(n);
      assert a == before;
      a := qsort(a);
      AllDistinct(before);
      PermutationIsDistinct(before, a);
      SameObjects(a, before);
      EmptyChain();
      objects, lastObject, nodes := null, null, [];
      assert forall j :: 0 <= j < |a| ==> a[j] in before;
      RequeueAll(a, before);
    }
  }
}
