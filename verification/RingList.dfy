/** The intrusive circular lists of list.c: heads and entries are nodes of one kind, linked
    in rings, and every operation only rewires the nodes next to the place it changes. */
module RingList {
  import opened Common

  /** struct list_head, embedded in the task structure of number `slot`. */
  class Node {
    var next: Node?
    var prev: Node?
    const slot: int

    constructor (slot: int)
      ensures this.slot == slot
    {
      this.slot := slot;
      next, prev := null, null;
    }
  }

  /** The nodes of c form a ring in this order, in both directions. */
  ghost predicate Linked(c: seq<Node>)
    reads c
  {
    && |c| > 0 && Distinct(c)
    && (forall i :: 0 <= i < |c| - 1 ==> c[i].next == c[i + 1])
    && (forall i :: 0 < i < |c| ==> c[i].prev == c[i - 1])
    && c[|c| - 1].next == c[0] && c[0].prev == c[|c| - 1]
  }

  ghost function After(c: seq<Node>, i: nat): Node
    requires i < |c|
  {
    if i == |c| - 1 then c[0] else c[i + 1]
  }

  ghost predicate Apart(c: seq<Node>, d: seq<Node>) {
    forall n :: n in c ==> n !in d
  }

  /** __list_add between two neighbours of a ring. */
  method LinkBetween(entry: Node, prev: Node, next: Node, ghost c: seq<Node>, ghost i: nat)
    requires Linked(c) && i < |c| && prev == c[i] && next == After(c, i) && entry !in c
    modifies entry, prev, next
    ensures Linked(c[..i + 1] + [entry] + c[i + 1..])
  {
    next.prev := entry;
    entry.next := next;
    entry.prev := prev;
    prev.next := entry;
    ghost var d := c[..i + 1] + [entry] + c[i + 1..];
    assert forall j :: 0 <= j < |d| ==> d[j] == if j <= i then c[j] else if j == i + 1 then entry else c[j - 1];
    assert Distinct(d);
    forall j | 0 <= j < |d| - 1 ensures d[j].next == d[j + 1] && d[j + 1].prev == d[j] {
      assert j > i + 1 ==> c[j - 1].next == c[j];
      assert j < i ==> c[j].next == c[j + 1];
    }
  }

  /** list_del on entry i of a ring whose head is its first node. */
  method Unlink(entry: Node, ghost c: seq<Node>, ghost i: nat)
    requires Linked(c) && 0 < i < |c| && entry == c[i]
    modifies entry, entry.next, entry.prev
    ensures Linked(c[..i] + c[i + 1..])
    ensures entry.next == null && entry.prev == null
  {
    assert entry.prev == c[i - 1] && entry.next == After(c, i);
    var prev, next := entry.prev, entry.next;
    next.prev := prev;
    prev.next := next;
    entry.next := null;
    entry.prev := null;
    ghost var d := c[..i] + c[i + 1..];
    assert forall j :: 0 <= j < |d| ==> d[j] == if j < i then c[j] else c[j + 1];
  }

  /** A ring none of whose nodes changed is still a ring. */
  twostate lemma StillLinked(c: seq<Node>)
    requires old(Linked(c)) && forall n :: n in c ==> n.next == old(n.next) && n.prev == old(n.prev)
    ensures Linked(c)
  {
    forall i | 0 <= i < |c| ensures c[i].next == old(c[i].next) && c[i].prev == old(c[i].prev) {
      assert c[i] in c;
    }
  }

  // ---- several rings ---------------------------------------------------

  /** The entries of each ring, by its head. */
  type Rings = map<Node, seq<Node>>

  ghost function Cycle(rings: Rings, h: Node): seq<Node>
    requires h in rings
  {
    [h] + rings[h]
  }

  /** Node n is in no ring. */
  ghost predicate Loose(rings: Rings, n: Node) {
    forall h :: h in rings ==> n !in Cycle(rings, h)
  }

  ghost predicate AllApart(rings: Rings) {
    forall g, h :: g in rings && h in rings && g != h ==> Apart(Cycle(rings, g), Cycle(rings, h))
  }

  ghost predicate AllIn(rings: Rings, nodes: set<Node>) {
    forall h :: h in rings ==> forall n :: n in Cycle(rings, h) ==> n in nodes
  }

  /** One ring may take a loose node, and lose some. */
  lemma ReplaceRing(rings: Rings, nodes: set<Node>, head: Node, s: seq<Node>, entry: Node)
    requires AllApart(rings) && AllIn(rings, nodes) && head in rings
    requires forall n :: n in s ==> n in rings[head] || (n == entry && Loose(rings, entry))
    ensures AllApart(rings[head := s]) && AllIn(rings[head := s], nodes + {entry})
  {
    var after := rings[head := s];
    forall n | n in Cycle(after, head) ensures n in Cycle(rings, head) || (n == entry && Loose(rings, entry)) {
      assert n == head || n in s;
    }
    forall g | g in after && g != head ensures Cycle(after, g) == Cycle(rings, g) && Apart(Cycle(after, g), Cycle(after, head)) {
      assert Apart(Cycle(rings, g), Cycle(rings, head));
    }
  }

  /** An entry removed from its ring is in no ring. */
  lemma RemovedIsLoose(rings: Rings, head: Node, i: nat)
    requires AllApart(rings) && head in rings && i < |rings[head]| && Distinct(Cycle(rings, head))
    ensures Loose(rings[head := rings[head][..i] + rings[head][i + 1..]], rings[head][i])
  {
    var s, c := rings[head], Cycle(rings, head);
    var after := rings[head := s[..i] + s[i + 1..]];
    assert c[i + 1] == s[i] && s[i] in c;
    forall h | h in after ensures s[i] !in Cycle(after, h) {
      if h == head {
        forall j | 0 <= j < |s| && j != i ensures s[j] != s[i] {
          assert c[j + 1] == s[j];
        }
        assert s[i] != c[0];
      } else {
        assert Apart(Cycle(rings, h), c);
      }
    }
  }

  lemma CycleAdd<T>(head: T, s: seq<T>, entry: T)
    ensures var c := [head] + s; c[..1] + [entry] + c[1..] == [head] + ([entry] + s)
  {
  }

  lemma CycleAddTail<T>(head: T, s: seq<T>, entry: T)
    ensures var c := [head] + s; c[..|c| - 1 + 1] + [entry] + c[|c| - 1 + 1..] == [head] + (s + [entry])
  {
  }

  lemma CycleDel<T>(head: T, s: seq<T>, i: nat)
    requires i < |s|
    ensures var c := [head] + s; c[..i + 1] + c[i + 2..] == [head] + (s[..i] + s[i + 1..])
  {
  }

  /** All rings of the program. */
  class Lists {
    ghost var rings: Rings
    /** At least the nodes of all rings. */
    ghost var nodes: set<Node>

    ghost predicate Valid()
      reads this, nodes
    {
      && AllIn(rings, nodes) && AllApart(rings)
      && (forall h :: h in rings ==> h in nodes && (forall n :: n in rings[h] ==> n in nodes) && Linked(Cycle(rings, h)))
    }

    constructor ()
      ensures Valid() && rings == map[] && nodes == {}
    {
      rings, nodes := map[], {};
    }

    /** Of a head already in use the entries are let loose. */
    method InitListHead(list: Node)
      requires Valid() && forall h :: h in rings ==> list !in rings[h]
      modifies this, list
      ensures Valid()
      ensures rings == old(rings)[list := []] && nodes == old(nodes) + {list}
    {
      list.next := list;
      list.prev := list;
      rings := rings[list := []];
      nodes := nodes + {list};
      assert Cycle(rings, list) == [list];
      forall g | g in old(rings) && g != list ensures Cycle(rings, g) == Cycle(old(rings), g) && Linked(Cycle(rings, g)) {
        assert list !in Cycle(old(rings), g);
        StillLinked(Cycle(old(rings), g));
      }
    }

    /** __list_add in the ring of `head`, after place i of its cycle; the other rings keep their links. */
    method LinkIn(entry: Node, prev: Node, next: Node, ghost head: Node, ghost i: nat)
      requires Valid() && head in rings && Loose(rings, entry)
      requires i < |Cycle(rings, head)| && prev == Cycle(rings, head)[i] && next == After(Cycle(rings, head), i)
      modifies entry, prev, next
      ensures var c := Cycle(rings, head); Linked(c[..i + 1] + [entry] + c[i + 1..])
      ensures forall g :: g in rings && g != head ==> Linked(Cycle(rings, g))
    {
      assert prev in Cycle(rings, head) && next in Cycle(rings, head);
      LinkBetween(entry, prev, next, Cycle(rings, head), i);
      forall g | g in rings && g != head ensures Linked(Cycle(rings, g)) {
        assert Apart(Cycle(rings, g), Cycle(rings, head));
        StillLinked(Cycle(rings, g));
      }
    }

    /** The links of list_del in the ring of `head`, at place i of its cycle. */
    method LinkOut(entry: Node, ghost head: Node, ghost i: nat)
      requires Valid() && head in rings && 0 < i < |Cycle(rings, head)| && entry == Cycle(rings, head)[i]
      modifies entry, entry.next, entry.prev
      ensures var c := Cycle(rings, head); Linked(c[..i] + c[i + 1..])
      ensures forall g :: g in rings && g != head ==> Linked(Cycle(rings, g))
      ensures entry.next == null && entry.prev == null
    {
      assert entry.prev == Cycle(rings, head)[i - 1] && entry.next == After(Cycle(rings, head), i);
      Unlink(entry, Cycle(rings, head), i);
      forall g | g in rings && g != head ensures Linked(Cycle(rings, g)) {
        assert Apart(Cycle(rings, g), Cycle(rings, head));
        StillLinked(Cycle(rings, g));
      }
    }

    /** list_add: the entry becomes the first of its ring. */
    method ListAdd(entry: Node, head: Node)
      requires Valid() && head in rings && Loose(rings, entry)
      modifies this, entry, head, head.next
      ensures Valid()
      ensures rings == old(rings)[head := [entry] + old(rings)[head]] && nodes == old(nodes) + {entry}
    {
      assert Cycle(rings, head)[0] == head && head.next == After(Cycle(rings, head), 0);
      LinkIn(entry, head, head.next, head, 0);
      CycleAdd(head, rings[head], entry);
      Replaced(head, [entry] + rings[head], entry);
    }

    /** list_add_tail: the entry becomes the last of its ring. */
    method ListAddTail(entry: Node, head: Node)
      requires Valid() && head in rings && Loose(rings, entry)
      modifies this, entry, head, head.prev
      ensures Valid()
      ensures rings == old(rings)[head := old(rings)[head] + [entry]] && nodes == old(nodes) + {entry}
    {
      assert Cycle(rings, head)[0] == head;
      LinkIn(entry, head.prev, head, head, |rings[head]|);
      CycleAddTail(head, rings[head], entry);
      Replaced(head, rings[head] + [entry], entry);
    }

    /** list_del of the entry at place i of a ring; the C code needs neither head nor place. */
    method ListDel(entry: Node, ghost head: Node, ghost i: nat)
      requires Valid() && head in rings && i < |rings[head]| && rings[head][i] == entry
      modifies this, entry, entry.next, entry.prev
      ensures Valid() && Loose(rings, entry)
      ensures rings == old(rings)[head := old(rings)[head][..i] + old(rings)[head][i + 1..]] && nodes == old(nodes) + {entry}
      ensures entry.next == null && entry.prev == null
    {
      RemovedIsLoose(rings, head, i);
      LinkOut(entry, head, i + 1);
      CycleDel(head, rings[head], i);
      Replaced(head, rings[head][..i] + rings[head][i + 1..], entry);
    }

    /** Records the new entries of one ring, once the links are rewired. */
    ghost method Replaced(head: Node, s: seq<Node>, entry: Node)
      requires AllIn(rings, nodes) && AllApart(rings) && head in rings
      requires forall n :: n in s ==> n in rings[head] || (n == entry && Loose(rings, entry))
      requires Linked([head] + s)
      requires forall g :: g in rings && g != head ==> Linked(Cycle(rings, g))
      modifies this
      ensures Valid() && rings == old(rings)[head := s] && nodes == old(nodes) + {entry}
    {
      ReplaceRing(rings, nodes, head, s, entry);
      rings := rings[head := s];
      nodes := nodes + {entry};
      assert Cycle(rings, head) == [head] + s;
      forall h | h in rings ensures h in nodes && (forall n :: n in rings[h] ==> n in nodes) && Linked(Cycle(rings, h)) {
        assert forall n :: n in Cycle(rings, h) ==> n in nodes;
        assert h in Cycle(rings, h) && forall n :: n in rings[h] ==> n in Cycle(rings, h);
      }
    }

    /** The neighbours of a node are nodes of its ring. */
    lemma Neighbours(head: Node, i: nat)
      requires Valid() && head in rings && i < |Cycle(rings, head)|
      ensures Cycle(rings, head)[i].next in nodes && Cycle(rings, head)[i].prev in nodes
    {
      var c := Cycle(rings, head);
      assert c[i].next == After(c, i);
      assert c[i].prev == if i == 0 then c[|c| - 1] else c[i - 1];
      assert forall n :: n in c ==> n in nodes;
    }

    method ListEmpty(head: Node) returns (r: bool)
      requires Valid() && head in rings
      ensures r <==> rings[head] == []
    {
      ghost var c := Cycle(rings, head);
      assert c[0].next == After(c, 0);
      r := head.next == head;
    }

    method ListFirst(head: Node) returns (first: Node)
      requires Valid() && head in rings && rings[head] != []
      ensures first == rings[head][0]
    {
      ghost var c := Cycle(rings, head);
      assert c[0].next == c[1];
      first := head.next;
    }

    method ListIsLast(list: Node, head: Node, ghost i: nat) returns (r: bool)
      requires Valid() && head in rings && i < |rings[head]| && list == rings[head][i]
      ensures r <==> i == |rings[head]| - 1
    {
      ghost var c := Cycle(rings, head);
      assert c[i + 1] == list && list.next == After(c, i + 1);
      r := list.next == head;
    }

    /** list_for_each visits the entries in order. */
    method ReadForward(head: Node) returns (visited: seq<Node>)
      requires Valid() && head in rings
      ensures visited == rings[head]
    {
      ghost var c := Cycle(rings, head);
      assert c[0].next == After(c, 0);
      visited := [];
      var pos := head.next;
      while pos != head
        invariant |visited| <= |rings[head]| && visited == rings[head][..|visited|]
        invariant pos == After(c, |visited|)
        decreases |rings[head]| - |visited|
      {
        var n := |visited|;
        assert pos == c[n + 1] && pos.next == After(c, n + 1);
        visited := visited + [pos];
        pos := pos.next;
      }
    }

    /** Following prev visits them in reverse. */
    method ReadBackward(head: Node) returns (visited: seq<Node>)
      requires Valid() && head in rings
      ensures |visited| == |rings[head]|
      ensures forall j :: 0 <= j < |visited| ==> visited[j] == rings[head][|visited| - 1 - j]
    {
      ghost var c := Cycle(rings, head);
      ghost var n := |rings[head]|;
      visited := [];
      var pos := head.prev;
      assert pos == c[n];
      while pos != head
        invariant |visited| <= n && pos == c[n - |visited|]
        invariant forall j :: 0 <= j < |visited| ==> visited[j] == rings[head][n - 1 - j]
        decreases n - |visited|
      {
        assert pos.prev == c[n - |visited| - 1];
        visited := visited + [pos];
        pos := pos.prev;
      }
    }
  }
}
