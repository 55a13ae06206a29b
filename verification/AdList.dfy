/** The doubly linked list of adlist.c on the heap. `nodes` is the sequence the links describe,
    read the same way in both directions. */
module AdList {
  import opened Bytes

  class Node<T> {
    var prev: Node?<T>
    var next: Node?<T>
    const value: T

    constructor (value: T)
      ensures this.value == value && prev == null && next == null
    {
      this.value := value;
      prev := null;
      next := null;
    }
  }

  function Without<X>(s: seq<X>, k: nat): seq<X>
    requires k < |s|
  {
    s[..k] + s[k + 1..]
  }

  /** The values of a sequence of nodes; no list operation writes a node's value. */
  function ValuesOf<T>(nodes: seq<Node<T>>): seq<T>
  {
    if nodes == [] then [] else ValuesOf(nodes[..|nodes| - 1]) + [nodes[|nodes| - 1].value]
  }

  lemma ValuesOfMore<T>(nodes: seq<Node<T>>, n: Node<T>)
    ensures ValuesOf(nodes + [n]) == ValuesOf(nodes) + [n.value]
  {
    assert (nodes + [n])[..|nodes|] == nodes;
  }

  lemma {:induction false} ValuesOfConcat<T>(a: seq<Node<T>>, b: seq<Node<T>>)
    ensures ValuesOf(a + b) == ValuesOf(a) + ValuesOf(b)
    decreases |b|
  {
    if b == [] {
      assert a + b == a;
    } else {
      assert (a + b)[..|a + b| - 1] == a + b[..|b| - 1];
      ValuesOfConcat(a, b[..|b| - 1]);
    }
  }

  /** The i-th value is that of the i-th node. */
  lemma {:induction false} ValuesOfMeans<T>(nodes: seq<Node<T>>, i: nat)
    requires i < |nodes|
    ensures |ValuesOf(nodes)| == |nodes| && ValuesOf(nodes)[i] == nodes[i].value
    decreases |nodes|
  {
    var init := nodes[..|nodes| - 1];
    if i < |init| {
      ValuesOfMeans(init, i);
    } else if init != [] {
      ValuesOfMeans(init, 0);
    }
  }

  lemma RemovedDistinct<X>(s: seq<X>, k: nat)
    requires k < |s| && forall i, j | 0 <= i < j < |s| :: s[i] != s[j]
    ensures var r := Without(s, k);
            && (forall i | 0 <= i < |r| :: r[i] == s[if i < k then i else i + 1])
            && (forall i, j | 0 <= i < j < |r| :: r[i] != r[j])
  {
  }

  lemma InsertedDistinct<X>(s: seq<X>, k: nat, x: X)
    requires k <= |s| && x !in s && forall i, j | 0 <= i < j < |s| :: s[i] != s[j]
    ensures var r := s[..k] + [x] + s[k..];
            && (forall i | 0 <= i < k :: r[i] == s[i]) && (forall i | k < i < |r| :: r[i] == s[i - 1])
            && (forall i, j | 0 <= i < j < |r| :: r[i] != r[j])
  {
  }

  class List<T> {
    var head: Node?<T>
    var tail: Node?<T>
    var len: nat
    ghost var nodes: seq<Node<T>>

    /** The nodes are distinct, and linked to their neighbours in both directions. */
    ghost predicate Linked()
      reads this, nodes
    {
      && len == |nodes|
      && (forall i, j | 0 <= i < j < |nodes| :: nodes[i] != nodes[j])
      && (forall i {:trigger nodes[i].prev} | 0 <= i < |nodes| ::
            nodes[i].prev == if i == 0 then null else nodes[i - 1])
      && (forall i {:trigger nodes[i].next} | 0 <= i < |nodes| ::
            nodes[i].next == if i == |nodes| - 1 then null else nodes[i + 1])
    }

    ghost predicate Valid()
      reads this, nodes
    {
      && Linked()
      && head == (if nodes == [] then null else nodes[0])
      && tail == (if nodes == [] then null else nodes[|nodes| - 1])
    }

    constructor ()
      ensures Valid() && nodes == []
    {
      head := null;
      tail := null;
      len := 0;
      nodes := [];
    }

    /** listAddNodeHead. */
    method AddNodeHead(value: T) returns (node: Node<T>)
      requires Valid()
      modifies this, nodes
      ensures Valid() && fresh(node) && node.value == value && nodes == [node] + old(nodes)
    {
      node := new Node(value);
      if len == 0 {
        head := node;
        tail := node;
      } else {
        node.next := head;
        head.prev := node;
        head := node;
      }
      len := len + 1;
      nodes := [node] + nodes;
    }

    /** listAddNodeTail. */
    method AddNodeTail(value: T) returns (node: Node<T>)
      requires Valid()
      modifies this, nodes
      ensures Valid() && fresh(node) && node.value == value && nodes == old(nodes) + [node]
    {
      node := new Node(value);
      if len == 0 {
        head := node;
        tail := node;
      } else {
        node.prev := tail;
        tail.next := node;
        tail := node;
      }
      len := len + 1;
      nodes := nodes + [node];
    }

    /** The end of listInsertNode: the neighbours learn of a node that already points to them. */
    method LinkIn(node: Node<T>, ghost at: nat)
      requires Linked() && at <= |nodes| && node !in nodes
      requires node.prev == if at == 0 then null else nodes[at - 1]
      requires node.next == if at == |nodes| then null else nodes[at]
      requires head == if at == 0 then node else nodes[0]
      requires tail == if at == |nodes| then node else nodes[|nodes| - 1]
      modifies this`len, this`nodes, nodes
      ensures Valid() && nodes == old(nodes)[..at] + [node] + old(nodes)[at..]
    {
      if node.prev != null {
        node.prev.next := node;
      }
      if node.next != null {
        node.next.prev := node;
      }
      len := len + 1;
      ghost var s := nodes;
      InsertedDistinct(s, at, node);
      nodes := s[..at] + [node] + s[at..];
      forall i | 0 <= i < |nodes|
        ensures nodes[i].prev == if i == 0 then null else nodes[i - 1]
        ensures nodes[i].next == if i == |nodes| - 1 then null else nodes[i + 1]
      {
        assert nodes[i] == if i < at then s[i] else if i == at then node else s[i - 1];
      }
    }

    /** The two branches of listInsertNode: a new node that points to its neighbours. */
    method NewNeighbour(oldNode: Node<T>, ghost k: nat, value: T, after: bool) returns (node: Node<T>)
      requires Valid() && k < |nodes| && nodes[k] == oldNode
      modifies this`head, this`tail
      ensures fresh(node) && node.value == value && Linked()
      ensures var at := if after then k + 1 else k;
              && node.prev == (if at == 0 then null else nodes[at - 1])
              && node.next == (if at == |nodes| then null else nodes[at])
              && head == (if at == 0 then node else nodes[0])
              && tail == (if at == |nodes| then node else nodes[|nodes| - 1])
    {
      node := new Node(value);
      if after {
        node.prev := oldNode;
        node.next := oldNode.next;
        if tail == oldNode {
          tail := node;
        }
      } else {
        node.next := oldNode;
        node.prev := oldNode.prev;
        if head == oldNode {
          head := node;
        }
      }
    }

    /** listInsertNode, next to the node at position k. */
    method InsertNode(oldNode: Node<T>, ghost k: nat, value: T, after: bool)
      returns (node: Node<T>)
      requires Valid() && k < |nodes| && nodes[k] == oldNode
      modifies this, nodes
      ensures Valid() && fresh(node) && node.value == value
      ensures var at := if after then k + 1 else k; nodes == old(nodes)[..at] + [node] + old(nodes)[at..]
    {
      node := NewNeighbour(oldNode, k, value, after);
      LinkIn(node, if after then k + 1 else k);
    }

    /** The pointer updates of listDelNode: the neighbours of the node skip it. */
    method Bypass(node: Node<T>, ghost k: nat)
      requires Valid() && k < |nodes| && nodes[k] == node
      modifies this`head, this`tail, nodes
      ensures forall i {:trigger nodes[i].prev} | 0 <= i < |nodes| && i != k ::
                nodes[i].prev == if i == 0 || (i == 1 && k == 0) then null
                                 else if i == k + 1 then nodes[k - 1] else nodes[i - 1]
      ensures forall i {:trigger nodes[i].next} | 0 <= i < |nodes| && i != k ::
                nodes[i].next == if i == |nodes| - 1 || (i == |nodes| - 2 && k == |nodes| - 1) then null
                                 else if i + 1 == k then nodes[k + 1] else nodes[i + 1]
      ensures head == if k > 0 then nodes[0] else if |nodes| > 1 then nodes[1] else null
      ensures tail == if k < |nodes| - 1 then nodes[|nodes| - 1] else if k > 0 then nodes[k - 1] else null
    {
      if node.prev != null {
        node.prev.next := node.next;
      } else {
        head := node.next;
      }
      if node.next != null {
        node.next.prev := node.prev;
      } else {
        tail := node.prev;
      }
    }

    /** listDelNode. */
    method DelNode(node: Node<T>, ghost k: nat)
      requires Valid() && k < |nodes| && nodes[k] == node
      modifies this, nodes
      ensures Valid() && nodes == Without(old(nodes), k)
    {
      Bypass(node, k);
      len := len - 1;
      ghost var s := nodes;
      RemovedDistinct(s, k);
      nodes := Without(s, k);
      forall i | 0 <= i < |nodes|
        ensures nodes[i].prev == if i == 0 then null else nodes[i - 1]
        ensures nodes[i].next == if i == |nodes| - 1 then null else nodes[i + 1]
      {
        assert nodes[i] == s[if i < k then i else i + 1];
      }
    }

    /** listRotate: the tail node becomes the head. */
    method Rotate()
      requires Valid()
      modifies this, nodes
      ensures Valid()
      ensures nodes == if |old(nodes)| <= 1 then old(nodes)
                       else [old(nodes)[|old(nodes)| - 1]] + old(nodes)[..|old(nodes)| - 1]
    {
      var last := tail;
      if len <= 1 {
        return;
      }
      tail := last.prev;
      tail.next := null;
      head.prev := last;
      last.prev := null;
      last.next := head;
      head := last;
      nodes := [nodes[|nodes| - 1]] + nodes[..|nodes| - 1];
    }

    /** listJoin: the nodes of the other list are appended, leaving it empty. */
    method Join(o: List<T>)
      requires Valid() && o.Valid() && o != this && Apart(this, o)
      modifies this, o, nodes, o.nodes
      ensures Valid() && o.Valid() && nodes == old(nodes) + old(o.nodes) && o.nodes == []
    {
      if o.head != null {
        o.head.prev := tail;
      }
      if tail != null {
        tail.next := o.head;
      } else {
        head := o.head;
      }
      if o.tail != null {
        tail := o.tail;
      }
      len := len + o.len;
      nodes := nodes + o.nodes;
      o.head := null;
      o.tail := null;
      o.len := 0;
      o.nodes := [];
    }

    /** listIndex: a negative index counts from the tail. */
    method Index(index: int) returns (n: Node?<T>)
      requires Valid()
      ensures n == if 0 <= index < |nodes| then nodes[index]
                   else if -|nodes| <= index < 0 then nodes[|nodes| + index] else null
    {
      if index < 0 {
        var left := -index - 1;
        ghost var i := |nodes|;
        n := tail;
        while left > 0 && n != null
          invariant 0 <= left && 0 <= i <= |nodes| && left - i == -index - 1 - |nodes|
          invariant n == if i == 0 then null else nodes[i - 1]
          decreases left
        {
          n := n.prev;
          left := left - 1;
          i := i - 1;
        }
      } else {
        var left := index;
        ghost var i := 0;
        n := head;
        while left > 0 && n != null
          invariant 0 <= left && 0 <= i <= |nodes| && left + i == index
          invariant n == if i == |nodes| then null else nodes[i]
          decreases left
        {
          n := n.next;
          left := left - 1;
          i := i + 1;
        }
      }
    }
  }

  /** listIter; a false direction goes from tail to head. */
  class ListIter<T> {
    var next: Node?<T>
    const forward: bool

    /** Standing between positions i - 1 and i of the list. */
    ghost predicate StandsAt(l: List<T>, i: nat)
      reads this, l
    {
      && i <= |l.nodes|
      && next == (if forward then (if i < |l.nodes| then l.nodes[i] else null)
                  else (if i > 0 then l.nodes[i - 1] else null))
    }

    /** listGetIterator, listRewind and listRewindTail. */
    constructor (l: List<T>, forward: bool)
      requires l.Valid()
      ensures this.forward == forward && StandsAt(l, if forward then 0 else |l.nodes|)
    {
      this.forward := forward;
      next := if forward then l.head else l.tail;
    }

    /** listNext. */
    method Next(ghost l: List<T>, ghost i: nat) returns (current: Node?<T>)
      requires l.Valid() && StandsAt(l, i)
      modifies this
      ensures current == old(next)
      ensures current == null ==> StandsAt(l, i)
      ensures current != null ==> StandsAt(l, if forward then i + 1 else i - 1)
      ensures current == null <==> i == if forward then |l.nodes| else 0
    {
      current := next;
      if current != null {
        next := if forward then current.next else current.prev;
      }
    }
  }

  function Kept<T>(nodes: seq<Node<T>>, keep: T -> bool): seq<Node<T>>
  {
    if nodes == [] then []
    else
      var n := nodes[|nodes| - 1];
      Kept(nodes[..|nodes| - 1], keep) + KeptOne(n, keep)
  }

  function KeptOne<T>(n: Node<T>, keep: T -> bool): seq<Node<T>> { if keep(n.value) then [n] else [] }

  lemma KeptMore<T>(seen: seq<Node<T>>, n: Node<T>, keep: T -> bool)
    ensures Kept(seen + [n], keep) == Kept(seen, keep) + KeptOne(n, keep)
  {
    assert (seen + [n])[..|seen|] == seen;
  }

  lemma {:induction false} KeptBefore<T>(n: Node<T>, seen: seq<Node<T>>, keep: T -> bool)
    ensures Kept([n] + seen, keep) == KeptOne(n, keep) + Kept(seen, keep)
    decreases |seen|
  {
    var nodes := [n] + seen;
    if seen == [] {
      assert nodes[..0] == [] && Kept(nodes, keep) == [] + KeptOne(n, keep);
    } else {
      var init := seen[..|seen| - 1];
      assert nodes[..|nodes| - 1] == [n] + init;
      KeptBefore(n, init, keep);
    }
  }

  /** The nodes kept are exactly those the predicate holds of; with KeptConcat, in their order. */
  lemma {:induction false} KeptMeans<T>(nodes: seq<Node<T>>, keep: T -> bool, n: Node<T>)
    ensures n in Kept(nodes, keep) <==> n in nodes && keep(n.value)
    decreases |nodes|
  {
    if nodes != [] {
      var last := |nodes| - 1;
      KeptMeans(nodes[..last], keep, n);
      assert nodes == nodes[..last] + [nodes[last]];
    }
  }

  lemma {:induction false} KeptConcat<T>(a: seq<Node<T>>, b: seq<Node<T>>, keep: T -> bool)
    ensures Kept(a + b, keep) == Kept(a, keep) + Kept(b, keep) && |Kept(a, keep)| <= |a|
    decreases |a| + |b|
  {
    if b != [] {
      var last := |b| - 1;
      assert (a + b)[..|a + b| - 1] == a + b[..last];
      KeptConcat(a, b[..last], keep);
    } else {
      assert a + b == a;
      if a != [] { KeptConcat(a[..|a| - 1], [], keep); }
    }
  }

  /** The iterator stands between the nodes `before` and the nodes `after` of the list, all of
      them among those of `region`. */
  ghost predicate Visiting<T>(l: List<T>, it: ListIter<T>, before: seq<Node<T>>, after: seq<Node<T>>,
                              region: seq<Node<T>>)
    reads l, l.nodes, it
  {
    && l.Valid() && it.StandsAt(l, |before|) && l.nodes == before + after
    && (forall k | 0 <= k < |l.nodes| :: l.nodes[k] in region)
  }

  /** What happens to the node visited: it is deleted unless it is to be kept. */
  method Treat<T>(l: List<T>, n: Node<T>, keep: T -> bool, ghost k: nat, ghost region: seq<Node<T>>)
    requires l.Valid() && k < |l.nodes| && l.nodes[k] == n
    requires forall j | 0 <= j < |l.nodes| :: l.nodes[j] in region
    modifies l, region
    ensures l.Valid() && l.nodes == old(l.nodes)[..k] + KeptOne(n, keep) + old(l.nodes)[k + 1..]
    ensures forall j | 0 <= j < |l.nodes| :: l.nodes[j] in region
  {
    ghost var s := l.nodes;
    if !keep(n.value) {
      l.DelNode(n, k);
      assert s[..k] + [] == s[..k];
    } else {
      assert s == s[..k] + [n] + s[k + 1..];
    }
  }

  lemma Around<X>(before: seq<X>, after: seq<X>)
    requires after != []
    ensures var s := before + after;
            s[|before|] == after[0] && s[..|before|] == before && s[|before| + 1..] == after[1..]
  {
  }

  lemma AroundBack<X>(before: seq<X>, after: seq<X>, mid: seq<X>)
    requires before != []
    ensures var s, at := before + after, |before| - 1;
            && s[at] == before[at] && s[..at] == before[..at] && s[at + 1..] == after
            && before[..at] + mid + after == before[..at] + (mid + after)
  {
  }

  /** The visit after listNext, from the head: the iterator already stands one node further. */
  method TreatAhead<T>(l: List<T>, ghost it: ListIter<T>, n: Node<T>, keep: T -> bool,
                       ghost before: seq<Node<T>>, ghost after: seq<Node<T>>, ghost region: seq<Node<T>>)
    requires it.forward && after != [] && n == after[0] && l.Valid() && l.nodes == before + after
    requires it.StandsAt(l, |before| + 1) && forall j | 0 <= j < |l.nodes| :: l.nodes[j] in region
    modifies l, region
    ensures Visiting(l, it, before + KeptOne(n, keep), after[1..], region)
  {
    Around(before, after);
    Treat(l, n, keep, |before|, region);
  }

  method TreatBehind<T>(l: List<T>, ghost it: ListIter<T>, n: Node<T>, keep: T -> bool,
                        ghost before: seq<Node<T>>, ghost after: seq<Node<T>>, ghost region: seq<Node<T>>)
    requires !it.forward && before != [] && n == before[|before| - 1] && l.Valid() && l.nodes == before + after
    requires it.StandsAt(l, |before| - 1) && forall j | 0 <= j < |l.nodes| :: l.nodes[j] in region
    modifies l, region
    ensures Visiting(l, it, before[..|before| - 1], KeptOne(n, keep) + after, region)
  {
    AroundBack(before, after, KeptOne(n, keep));
    Treat(l, n, keep, |before| - 1, region);
  }

  /** listNext and one visit, from the head. */
  method VisitOne<T>(l: List<T>, it: ListIter<T>, keep: T -> bool,
                     ghost before: seq<Node<T>>, ghost after: seq<Node<T>>, ghost region: seq<Node<T>>)
    returns (node: Option<Node<T>>)
    requires it.forward && Visiting(l, it, before, after, region)
    modifies l, it, region
    ensures node.None? ==> after == [] && Visiting(l, it, before, after, region)
    ensures node.Some? ==>
              && after != [] && node.value == after[0]
              && Visiting(l, it, before + KeptOne(after[0], keep), after[1..], region)
  {
    var next := it.Next(l, |before|);
    if next == null {
      return None;
    }
    var n: Node<T> := next;
    TreatAhead(l, it, n, keep, before, after, region);
    return Some(n);
  }

  /** The same from the tail. */
  method VisitOneBack<T>(l: List<T>, it: ListIter<T>, keep: T -> bool,
                         ghost before: seq<Node<T>>, ghost after: seq<Node<T>>, ghost region: seq<Node<T>>)
    returns (node: Option<Node<T>>)
    requires !it.forward && Visiting(l, it, before, after, region)
    modifies l, it, region
    ensures node.None? ==> before == [] && Visiting(l, it, before, after, region)
    ensures node.Some? ==>
              && before != [] && node.value == before[|before| - 1]
              && Visiting(l, it, before[..|before| - 1], KeptOne(before[|before| - 1], keep) + after, region)
  {
    var next := it.Next(l, |before|);
    if next == null {
      return None;
    }
    var n: Node<T> := next;
    TreatBehind(l, it, n, keep, before, after, region);
    return Some(n);
  }

  /** The nodes `visited` have been returned, those of them to be kept are still in the list, and
      the iterator stands next to the rest. */
  ghost predicate Pruning<T>(l: List<T>, it: ListIter<T>, keep: T -> bool, visited: seq<Node<T>>,
                             todo: seq<Node<T>>, whole: seq<Node<T>>, region: seq<Node<T>>)
    reads l, l.nodes, it
  {
    if it.forward then Visiting(l, it, Kept(visited, keep), todo, region) && visited + todo == whole
    else Visiting(l, it, todo, Kept(Backwards(visited), keep), region) && todo + Backwards(visited) == whole
  }

  lemma PruneMore<T>(visited: seq<Node<T>>, todo: seq<Node<T>>, keep: T -> bool)
    requires todo != []
    ensures Kept(visited + [todo[0]], keep) == Kept(visited, keep) + KeptOne(todo[0], keep)
    ensures (visited + [todo[0]]) + todo[1..] == visited + todo
  {
    KeptMore(visited, todo[0], keep);
  }

  lemma PruneMoreBack<T>(visited: seq<Node<T>>, todo: seq<Node<T>>, keep: T -> bool)
    requires todo != []
    ensures var at := |todo| - 1;
            var now := Backwards(visited + [todo[at]]);
            && Kept(now, keep) == KeptOne(todo[at], keep) + Kept(Backwards(visited), keep)
            && todo[..at] + now == todo + Backwards(visited)
  {
    var n := todo[|todo| - 1];
    assert Backwards(visited + [n]) == [n] + Backwards(visited);
    KeptBefore(n, Backwards(visited), keep);
  }

  /** listNext and one visit, in the direction of the iterator. */
  method PruneOne<T>(l: List<T>, it: ListIter<T>, keep: T -> bool, visited: seq<Node<T>>,
                     ghost todo: seq<Node<T>>, ghost whole: seq<Node<T>>, ghost region: seq<Node<T>>)
    returns (more: bool, now: seq<Node<T>>, ghost rest: seq<Node<T>>)
    requires Pruning(l, it, keep, visited, todo, whole, region)
    modifies l, it, region
    ensures Pruning(l, it, keep, now, rest, whole, region)
    ensures if more then |rest| < |todo| else rest == []
  {
    more, now, rest := false, visited, todo;
    if it.forward {
      var node := VisitOne(l, it, keep, Kept(visited, keep), todo, region);
      if node.Some? {
        PruneMore(visited, todo, keep);
        more, now, rest := true, visited + [node.value], todo[1..];
      }
    } else {
      var node := VisitOneBack(l, it, keep, todo, Kept(Backwards(visited), keep), region);
      if node.Some? {
        PruneMoreBack(visited, todo, keep);
        more, now, rest := true, visited + [node.value], todo[..|todo| - 1];
      }
    }
  }

  method PruneAll<T>(l: List<T>, it: ListIter<T>, keep: T -> bool,
                     ghost whole: seq<Node<T>>, ghost region: seq<Node<T>>)
    returns (visited: seq<Node<T>>, ghost todo: seq<Node<T>>)
    requires Pruning(l, it, keep, [], whole, whole, region)
    modifies l, it, region
    ensures todo == [] && Pruning(l, it, keep, visited, todo, whole, region)
  {
    visited, todo := [], whole;
    var more := true;
    while more
      invariant Pruning(l, it, keep, visited, todo, whole, region)
      invariant !more ==> todo == []
      decreases |todo|, more
    {
      more, visited, todo := PruneOne(l, it, keep, visited, todo, whole, region);
    }
  }

  lemma NothingVisited<T>(l: List<T>, it: ListIter<T>, keep: T -> bool)
    requires l.Valid() && it.StandsAt(l, if it.forward then 0 else |l.nodes|)
    ensures Pruning(l, it, keep, [], l.nodes, l.nodes, l.nodes)
  {
    var whole := l.nodes;
    assert [] + whole == whole && whole + [] == whole;
    assert Backwards<Node<T>>([]) == [];
  }

  lemma AllVisited<T>(l: List<T>, it: ListIter<T>, keep: T -> bool, visited: seq<Node<T>>,
                      whole: seq<Node<T>>, region: seq<Node<T>>)
    requires Pruning(l, it, keep, visited, [], whole, region)
    ensures visited == (if it.forward then whole else Backwards(whole)) && l.nodes == Kept(whole, keep)
  {
    if it.forward {
      assert visited + [] == visited && Kept(visited, keep) + [] == Kept(visited, keep);
    } else {
      var back := Backwards(visited);
      assert [] + back == back && [] + Kept(back, keep) == Kept(back, keep);
      assert Backwards(back) == visited;
    }
  }

  /** The documented pattern of use, in either direction: visit every node, deleting some of the
      nodes as they are returned. All nodes are visited, in order, and the others remain. */
  method VisitAndPrune<T>(l: List<T>, forward: bool, keep: T -> bool) returns (visited: seq<Node<T>>)
    requires l.Valid()
    modifies l, l.nodes
    ensures l.Valid() && visited == if forward then old(l.nodes) else Backwards(old(l.nodes))
    ensures l.nodes == Kept(old(l.nodes), keep)
  {
    ghost var whole := l.nodes;
    var it := new ListIter(l, forward);
    NothingVisited(l, it, keep);
    ghost var todo;
    visited, todo := PruneAll(l, it, keep, whole, whole);
    AllVisited(l, it, keep, visited, whole, whole);
  }

  /** listSearchKey: the first node whose value matches. */
  method SearchKey<T>(l: List<T>, matches: T -> bool) returns (n: Node?<T>)
    requires l.Valid()
    ensures n == null ==> forall i | 0 <= i < |l.nodes| :: !matches(l.nodes[i].value)
    ensures n != null ==> exists k | 0 <= k < |l.nodes| ::
              n == l.nodes[k] && matches(n.value) && forall i | 0 <= i < k :: !matches(l.nodes[i].value)
  {
    var it := new ListIter(l, true);
    ghost var i := 0;
    n := it.Next(l, i);
    while n != null
      invariant fresh(it) && it.forward && i <= |l.nodes|
      invariant n == (if i < |l.nodes| then l.nodes[i] else null)
      invariant n != null ==> it.StandsAt(l, i + 1)
      invariant forall j | 0 <= j < i :: !matches(l.nodes[j].value)
      decreases |l.nodes| - i
    {
      if matches(n.value) {
        return;
      }
      i := i + 1;
      n := it.Next(l, i);
    }
  }

  function MapAll<T>(nodes: seq<Node<T>>, dup: T -> Option<T>): Option<seq<T>>
  {
    if nodes == [] then Some([])
    else
      var rest := MapAll(nodes[..|nodes| - 1], dup);
      var last := dup(nodes[|nodes| - 1].value);
      if rest.Some? && last.Some? then Some(rest.value + [last.value]) else None
  }

  ghost predicate Apart<T>(a: List<T>, b: List<T>)
    reads a, b
  {
    forall i, j | 0 <= i < |a.nodes| && 0 <= j < |b.nodes| :: a.nodes[i] != b.nodes[j]
  }

  /** The copy so far, with the iterator in front of the i-th node of the original. */
  ghost predicate Copying<T>(orig: List<T>, it: ListIter<T>, c: List<T>, i: nat, copied: seq<T>,
                             dup: T -> Option<T>)
    reads orig, orig.nodes, it, c, c.nodes
  {
    && orig.Valid() && it.forward && it.StandsAt(orig, i)
    && c.Valid() && c != orig && Apart(c, orig)
    && copied == ValuesOf(c.nodes) && MapAll(orig.nodes[..i], dup) == Some(copied)
  }

  /** One turn of the loop of listDup; it ends at the last node, or where dup fails. */
  method CopyOne<T>(orig: List<T>, it: ListIter<T>, c: List<T>, ghost i: nat, ghost copied: seq<T>,
                    dup: T -> Option<T>)
    returns (more: bool, failed: bool, ghost now: seq<T>)
    requires Copying(orig, it, c, i, copied, dup)
    modifies it, c, c.nodes
    ensures old(c.nodes) <= c.nodes && forall j | |old(c.nodes)| <= j < |c.nodes| :: fresh(c.nodes[j])
    ensures orig.nodes == old(orig.nodes)
    ensures failed ==> MapAll(orig.nodes, dup).None?
    ensures !failed && !more ==> c.Valid() && MapAll(orig.nodes, dup) == Some(ValuesOf(c.nodes))
    ensures !failed && more ==> i < |orig.nodes| && Copying(orig, it, c, i + 1, now, dup)
  {
    ghost var from := orig.nodes;
    var node := it.Next(orig, i);
    if node == null {
      assert from[..i] == from;
      return false, false, copied;
    }
    MapAllMore(from, i, dup);
    var value := dup(node.value);
    if value.None? {
      MapAllFails(from, i + 1, dup);
      return false, true, copied;
    }
    now := copied + [value.value];
    AppendCopy(orig, c, value.value);
    return true, false, now;
  }

  /** Appending to the copy leaves the original as it is. */
  method AppendCopy<T>(ghost orig: List<T>, c: List<T>, value: T)
    requires orig.Valid() && c.Valid() && c != orig && Apart(c, orig)
    modifies c, c.nodes
    ensures orig.Valid() && c.Valid() && Apart(c, orig)
    ensures orig.nodes == old(orig.nodes) && ValuesOf(c.nodes) == ValuesOf(old(c.nodes)) + [value]
    ensures old(c.nodes) <= c.nodes && forall j | |old(c.nodes)| <= j < |c.nodes| :: fresh(c.nodes[j])
  {
    ghost var from, before := orig.nodes, c.nodes;
    assert forall j | 0 <= j < |from| :: from[j] !in before;
    var n := c.AddNodeTail(value);
    ValuesOfMore(before, n);
  }

  /** listDup, with a dup method that may fail; the original is not modified. */
  method DupList<T>(orig: List<T>, dup: T -> Option<T>) returns (copy: List?<T>)
    requires orig.Valid()
    ensures copy == null <==> MapAll(orig.nodes, dup).None?
    ensures copy != null ==>
              && fresh(copy) && copy.Valid() && fresh(copy.nodes)
              && Some(ValuesOf(copy.nodes)) == MapAll(orig.nodes, dup)
  {
    var c := new List<T>();
    var it := new ListIter(orig, true);
    ghost var i, copied: seq<T> := 0, [];
    while true
      invariant fresh(it) && fresh(c) && i <= |orig.nodes|
      invariant forall j | 0 <= j < |c.nodes| :: fresh(c.nodes[j])
      invariant Copying(orig, it, c, i, copied, dup)
      decreases |orig.nodes| - i
    {
      var more, failed;
      more, failed, copied := CopyOne(orig, it, c, i, copied, dup);
      if failed {
        return null;
      }
      if !more {
        return c;
      }
      i := i + 1;
    }
  }

  lemma MapAllMore<T>(nodes: seq<Node<T>>, i: nat, dup: T -> Option<T>)
    requires i < |nodes| && MapAll(nodes[..i], dup).Some?
    ensures var v := dup(nodes[i].value);
            MapAll(nodes[..i + 1], dup) == if v.Some? then Some(MapAll(nodes[..i], dup).value + [v.value]) else None
  {
    assert nodes[..i + 1][..i] == nodes[..i];
  }

  /** All values are duplicated, in order, and it takes just one failure to have none. */
  lemma {:induction false} MapAllMeans<T>(nodes: seq<Node<T>>, dup: T -> Option<T>)
    ensures MapAll(nodes, dup).None? <==> exists i :: 0 <= i < |nodes| && dup(nodes[i].value).None?
    ensures MapAll(nodes, dup).Some? ==>
              && |MapAll(nodes, dup).value| == |nodes|
              && forall i | 0 <= i < |nodes| :: dup(nodes[i].value) == Some(MapAll(nodes, dup).value[i])
    decreases |nodes|
  {
    if nodes != [] {
      var n := |nodes| - 1;
      MapAllMeans(nodes[..n], dup);
      assert forall i | 0 <= i < n :: nodes[..n][i] == nodes[i];
    }
  }

  lemma {:induction false} MapAllFails<T>(nodes: seq<Node<T>>, k: nat, dup: T -> Option<T>)
    requires k <= |nodes| && MapAll(nodes[..k], dup).None?
    ensures MapAll(nodes, dup).None?
    decreases |nodes|
  {
    if k < |nodes| {
      assert nodes[..|nodes| - 1][..k] == nodes[..k];
      MapAllFails(nodes[..|nodes| - 1], k, dup);
    } else {
      assert nodes[..k] == nodes;
    }
  }
}
