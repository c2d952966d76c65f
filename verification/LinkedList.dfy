/**
 The doubly linked list that holds everything the daemon keeps: heads, tails, links and the
 length always describe one sequence, and an iteration may delete the node it is visiting.
 */
module LinkedList {

  function Kept<T>(s: seq<T>, drop: T -> bool): (r: seq<T>)
    ensures |r| <= |s|
  {
    if s == [] then [] else (if drop(s[0]) then [] else [s[0]]) + Kept(s[1..], drop)
  }

  class Node<T> {
    const data: T
    var prev: Node?<T>
    var next: Node?<T>

    constructor (data: T)
      ensures this.data == data && prev == null && next == null
    {
      this.data := data;
      prev, next := null, null;
    }
  }

  function Datas<T>(nodes: seq<Node<T>>): (s: seq<T>)
    ensures |s| == |nodes| && forall i :: 0 <= i < |nodes| ==> s[i] == nodes[i].data
  {
    seq(|nodes|, i requires 0 <= i < |nodes| => nodes[i].data)
  }

  predicate Distinct<T>(nodes: seq<Node<T>>) {
    forall i, j :: 0 <= i < j < |nodes| ==> nodes[i] != nodes[j]
  }

  /** Neighbours point at each other; the ends point nowhere. */
  ghost predicate Joined<T>(nodes: seq<Node<T>>)
    reads nodes
  {
    && (forall i, j :: 0 <= i < |nodes| && 0 <= j < |nodes| && j == i + 1 ==> nodes[i].next == nodes[j] && nodes[j].prev == nodes[i])
    && (nodes != [] ==> nodes[0].prev == null && nodes[|nodes| - 1].next == null)
  }

  class List<T> {
    var head: Node?<T>
    var tail: Node?<T>
    var len: nat
    ghost var nodes: seq<Node<T>>

    ghost predicate Valid()
      reads this, nodes
    {
      && len == |nodes| && Distinct(nodes) && Joined(nodes)
      && (if nodes == [] then head == null && tail == null else head == nodes[0] && tail == nodes[|nodes| - 1])
    }

    ghost function Contents(): (s: seq<T>)
      reads this
    {
      Datas(nodes)
    }

    constructor ()
      ensures Valid() && nodes == []
    {
      head, tail, len, nodes := null, null, 0, [];
    }

    method AddHead(x: T)
      requires Valid()
      modifies this, nodes
      ensures Valid() && Contents() == [x] + old(Contents())
      ensures |nodes| == |old(nodes)| + 1 && fresh(nodes[0]) && nodes[1..] == old(nodes)
    {
      var node := new Node(x);
      node.next := head;
      if head != null {
        head.prev := node;
      }
      head := node;
      if tail == null {
        tail := node;
      }
      len := len + 1;
      nodes := [node] + nodes;
    }

    method AddTail(x: T)
      requires Valid()
      modifies this, nodes
      ensures Valid() && Contents() == old(Contents()) + [x]
      ensures |nodes| == |old(nodes)| + 1 && fresh(nodes[|old(nodes)|]) && nodes[..|old(nodes)|] == old(nodes)
    {
      var node := new Node(x);
      node.prev := tail;
      if tail != null {
        tail.next := node;
      }
      tail := node;
      if head == null {
        head := node;
      }
      len := len + 1;
      nodes := nodes + [node];
    }

    /** Unlinks a node; its own links keep their values until it is freed. */
    method Delete(node: Node<T>, ghost k: nat)
      requires Valid() && k < |nodes| && nodes[k] == node
      modifies this, nodes
      ensures Valid() && nodes == old(nodes)[..k] + old(nodes)[k + 1..]
    {
      ghost var before := nodes;
      ghost var a, b := before[..k], before[k + 1..];
      assert k > 0 ==> node.prev == before[k - 1];
      assert k + 1 < |before| ==> node.next == before[k + 1];
      if head == node {
        head := node.next;
      }
      if tail == node {
        tail := node.prev;
      }
      if node.prev != null {
        node.prev.next := node.next;
      }
      if node.next != null {
        node.next.prev := node.prev;
      }
      len := len - 1;
      nodes := a + b;
    }

    method Clean()
      requires Valid()
      modifies this
      ensures Valid() && nodes == []
    {
      head, tail, len, nodes := null, null, 0, [];
    }

    method GetAt(index: nat) returns (found: bool, x: Node?<T>)
      requires Valid()
      ensures found <==> index < |Contents()|
      ensures found ==> x != null && x.data == Contents()[index]
    {
      var node, left: nat := head, index;
      ghost var i := 0;
      while node != null
        invariant 0 <= i <= |nodes| && left + i == index
        invariant if i < |nodes| then node == nodes[i] else node == null
        decreases |nodes| - i
      {
        if left == 0 {
          return true, node;
        }
        assert i + 1 < |nodes| ==> node.next == nodes[i + 1];
        left, node, i := left - 1, node.next, i + 1;
      }
      return false, null;
    }

    /**
     The iteration that deletes: it remembers the following node before it looks at the current
     one, so every element is visited once, in order, whatever is deleted.
     */
    method DeleteWhere(drop: T -> bool) returns (ghost visited: seq<T>)
      requires Valid()
      modifies this, nodes
      ensures Valid() && visited == old(Contents()) && Contents() == Kept(old(Contents()), drop)
    {
      hide Joined, Distinct, Kept, Datas, Within, Progress;
      ghost var done: seq<Node<T>>, rest := [], nodes;
      var node := head;
      if head != null {
        NextOf(nodes, 0);
      }
      var next := if head != null then head.next else null;
      visited := [];
      assert done + rest == nodes;
      NothingVisited(nodes, drop);
      assert Within(done, nodes) && Within(rest, nodes) by { AllWithin(nodes); }
      while node != null
        invariant Valid() && nodes == done + rest && Within(done, old(nodes)) && Within(rest, old(nodes))
        invariant if rest == [] then node == null else node == rest[0]
        invariant if |rest| <= 1 then next == null else next == rest[1]
        invariant Progress(done, rest, visited, old(nodes), drop)
        decreases |rest|
      {
        VisitOne(done, rest, visited, old(nodes), drop);
        WithinSplit(done, rest, old(nodes));
        ghost var later := rest[1..];
        visited := visited + [node.data];
        if drop(node.data) {
          assert forall i :: 0 <= i < |nodes| ==> nodes[i] in old(nodes);
          Delete(node, |done|);
        } else {
          done := done + [rest[0]];
        }
        rest := later;
        assert nodes == done + rest;
        node := next;
        if next != null {
          assert nodes[|done|] == next && (|rest| > 1 ==> nodes[|done| + 1] == rest[1]);
          NextOf(nodes, |done|);
          next := next.next;
        }
      }
      AllVisited(done, visited, old(nodes), drop);
      assert nodes == done;
    }
  }

  predicate Within<T>(a: seq<Node<T>>, b: seq<Node<T>>) {
    forall i :: 0 <= i < |a| ==> a[i] in b
  }

  lemma AllWithin<T>(nodes: seq<Node<T>>)
    ensures Within(nodes, nodes) && Within([], nodes)
  {
  }

  lemma WithinSplit<T>(done: seq<Node<T>>, rest: seq<Node<T>>, all: seq<Node<T>>)
    requires Within(done, all) && Within(rest, all) && rest != []
    ensures (forall i :: 0 <= i < |done + rest| ==> (done + rest)[i] in all) && Within(done + [rest[0]], all) && Within(rest[1..], all)
  {
  }

  lemma NextOf<T>(nodes: seq<Node<T>>, k: nat)
    requires Joined(nodes) && k < |nodes|
    ensures if k + 1 < |nodes| then nodes[k].next == nodes[k + 1] else nodes[k].next == null
  {
  }

  /** Elements seen and elements to come make up the list; so do those kept and to be kept. */
  ghost predicate Progress<T>(done: seq<Node<T>>, rest: seq<Node<T>>, visited: seq<T>, orig: seq<Node<T>>, drop: T -> bool) {
    && visited + Datas(rest) == Datas(orig)
    && Datas(done) + Kept(Datas(rest), drop) == Kept(Datas(orig), drop)
  }

  lemma NothingVisited<T>(nodes: seq<Node<T>>, drop: T -> bool)
    ensures Progress([], nodes, [], nodes, drop)
  {
    var none: seq<Node<T>> := [];
    assert Datas(none) == [];
  }

  lemma AllVisited<T>(done: seq<Node<T>>, visited: seq<T>, orig: seq<Node<T>>, drop: T -> bool)
    requires Progress(done, [], visited, orig, drop)
    ensures visited == Datas(orig) && Datas(done) == Kept(Datas(orig), drop)
  {
    var none: seq<Node<T>> := [];
    assert Datas(none) == [];
  }

  /** What visiting the first remaining node does to the elements seen and kept. */
  lemma VisitOne<T>(done: seq<Node<T>>, rest: seq<Node<T>>, visited: seq<T>, orig: seq<Node<T>>, drop: T -> bool)
    requires rest != [] && Progress(done, rest, visited, orig, drop)
    ensures Progress(if drop(rest[0].data) then done else done + [rest[0]], rest[1..], visited + [rest[0].data], orig, drop)
  {
    assert Datas(rest)[1..] == Datas(rest[1..]);
    assert [rest[0].data] + Datas(rest[1..]) == Datas(rest);
    assert Datas(done + [rest[0]]) == Datas(done) + [rest[0].data];
  }
}
