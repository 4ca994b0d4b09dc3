/** A binary min heap of linked nodes (libuv src/heap-inl.h).  A node is a number, and 0 is null;
    `slots` is what the tree looks like row by row. */
module Heaps {
  const NULL: nat := 0

  datatype Links = Links(left: nat, right: nat, parent: nat)

  /** What the heap compares: a strict total order on the nodes in it. */
  type Rank = seq<(nat, nat)>

  predicate Less(rank: Rank, a: nat, b: nat) {
    a < |rank| && b < |rank| && (rank[a].0 < rank[b].0 || (rank[a].0 == rank[b].0 && rank[a].1 < rank[b].1))
  }

  // ---------------------------------------------------------------------------------------------
  // The shape: a complete tree, linked both ways

  function Up(k: nat): nat
    requires k > 0
  {
    (k - 1) / 2
  }

  function Slot(slots: seq<nat>, k: nat): nat {
    if k < |slots| then slots[k] else NULL
  }

  ghost predicate LinkOk(nodes: seq<Links>, slots: seq<nat>, k: nat)
    requires k < |slots|
  {
    && 0 < slots[k] < |nodes|
    && nodes[slots[k]] == Links(Slot(slots, 2 * k + 1), Slot(slots, 2 * k + 2), if k == 0 then NULL else slots[Up(k)])
  }

  ghost predicate Shape(nodes: seq<Links>, min: nat, slots: seq<nat>) {
    && min == Slot(slots, 0)
    && (forall k :: 0 <= k < |slots| ==> LinkOk(nodes, slots, k))
    && forall a, b :: 0 <= a < b < |slots| ==> slots[a] != slots[b]
  }

  ghost predicate InOrder(rank: Rank, slots: seq<nat>, k: nat)
    requires 0 < k < |slots|
  {
    !Less(rank, slots[k], slots[Up(k)])
  }

  /** No node comes before its parent. */
  ghost predicate Ordered(rank: Rank, slots: seq<nat>) {
    forall k :: 0 < k < |slots| ==> InOrder(rank, slots, k)
  }

  function Swapped(slots: seq<nat>, i: nat, j: nat): seq<nat>
    requires i < |slots| && j < |slots|
  {
    slots[i := slots[j]][j := slots[i]]
  }

  // ---------------------------------------------------------------------------------------------
  // The path to a slot, as bits

  /** The slot, counted from 1, that a path of k bits leads to from slot c. */
  function Descend(c: nat, path: nat, k: nat): nat
    decreases k
  {
    if k == 0 then c else Descend(2 * c + path % 2, path / 2, k - 1)
  }

  lemma {:induction false} DescendGrows(c: nat, path: nat, k: nat)
    requires c > 0
    ensures Descend(c, path, k) >= c && (k > 0 ==> Descend(c, path, k) >= 2 * c + path % 2)
    decreases k
  {
    if k > 0 {
      DescendGrows(2 * c + path % 2, path / 2, k - 1);
    }
  }

  lemma PathOfNothing(n: nat)
    ensures Descend(n, 0, 0) == n
  {
  }

  lemma OneBitMore(n: nat, path: nat, k: nat)
    requires n >= 2
    ensures Descend(n / 2, 2 * path + n % 2, k + 1) == Descend(n, path, k)
  {
    var bit := n % 2;
    assert (2 * path + bit) % 2 == bit && (2 * path + bit) / 2 == path && 2 * (n / 2) + bit == n;
  }

  /** The bits of n but its highest, last bit first. */
  method PathTo(n0: nat) returns (path: nat, k: nat)
    requires n0 > 0
    ensures Descend(1, path, k) == n0
  {
    var n: nat := n0;
    path, k := 0, 0;
    PathOfNothing(n0);
    hide Descend;
    while n >= 2
      invariant n >= 1 && Descend(n, path, k) == n0
    {
      OneBitMore(n, path, k);
      path, k, n := 2 * path + n % 2, k + 1, n / 2;
    }
  }

  // ---------------------------------------------------------------------------------------------
  // Swapping a parent and a child

  function Sibling(nodes: seq<Links>, p: nat, c: nat): nat
    requires p < |nodes|
  {
    if nodes[p].left == c then nodes[p].right else nodes[p].left
  }

  /** The nodes around p and its child c are different nodes. */
  ghost predicate Family(nodes: seq<Links>, p: nat, c: nat) {
    && 0 < p < |nodes| && 0 < c < |nodes| && p != c && (nodes[p].left == c <==> nodes[p].right != c)
    && nodes[c].parent == p
    && var s, l, r, g := Sibling(nodes, p, c), nodes[c].left, nodes[c].right, nodes[p].parent;
    && s < |nodes| && l < |nodes| && r < |nodes| && g < |nodes|
    && s != p && s != c && l != p && l != c && r != p && r != c && g != p && g != c
    && (s != NULL ==> s != l && s != r && s != g) && (l != NULL ==> l != r && l != g) && (r != NULL ==> r != g)
    && (g != NULL ==> (nodes[g].left == p <==> nodes[g].right != p))
  }

  /** What node x links to once p and c have changed places. */
  function NewLinks(nodes: seq<Links>, p: nat, c: nat, x: nat): Links
    requires p < |nodes| && c < |nodes| && x < |nodes|
  {
    if x == c then
      if nodes[p].left == c then Links(p, nodes[p].right, nodes[p].parent) else Links(nodes[p].left, p, nodes[p].parent)
    else if x == p then Links(nodes[c].left, nodes[c].right, c)
    else if x == NULL then nodes[x]
    else if x == Sibling(nodes, p, c) then nodes[x].(parent := c)
    else if x == nodes[c].left || x == nodes[c].right then nodes[x].(parent := p)
    else if x == nodes[p].parent then
      if nodes[x].left == p then nodes[x].(left := c) else nodes[x].(right := c)
    else nodes[x]
  }

  /** The links of the two and the sibling's, as the first part of a swap leaves them. */
  ghost predicate Exchanged(nodes: seq<Links>, p: nat, c: nat, nodes': seq<Links>) {
    && p < |nodes| && c < |nodes| && |nodes'| == |nodes|
    && forall x :: 0 <= x < |nodes| ==>
         nodes'[x] == if x == c || x == p || (x == Sibling(nodes, p, c) && x != NULL) then NewLinks(nodes, p, c, x)
                      else nodes[x]
  }

  lemma ExchangeLeaves(nodes: seq<Links>, p: nat, c: nat, nodes': seq<Links>)
    requires Family(nodes, p, c) && Exchanged(nodes, p, c, nodes')
    ensures var n := nodes'[p];
            && n.left == nodes[c].left < |nodes| && n.right == nodes[c].right < |nodes|
            && p != n.left && p != n.right && (n.left != NULL ==> n.left != n.right)
    ensures nodes'[c].parent == nodes[p].parent < |nodes|
  {
  }

  lemma SwapInParts(nodes: seq<Links>, p: nat, c: nat, n1: seq<Links>, n2: seq<Links>, n3: seq<Links>)
    requires Family(nodes, p, c) && Exchanged(nodes, p, c, n1) && |n2| == |nodes| && |n3| == |nodes|
    requires forall x :: 0 <= x < |nodes| ==>
               n2[x] == if x != NULL && (x == n1[p].left || x == n1[p].right) then n1[x].(parent := p) else n1[x]
    requires forall x :: 0 <= x < |nodes| ==>
               n3[x] == if x == NULL || x != n2[c].parent then n2[x]
                        else if n2[x].left == p then n2[x].(left := c) else n2[x].(right := c)
    ensures forall x :: 0 <= x < |nodes| ==> n3[x] == NewLinks(nodes, p, c, x)
    ensures n2[c].parent == nodes[p].parent
  {
  }

  lemma UpOf(i: nat)
    ensures Up(2 * i + 1) == i == Up(2 * i + 2)
    ensures i > 0 ==> Up(i) < i && (i == 2 * Up(i) + 1 || i == 2 * Up(i) + 2)
  {
  }

  /** Different slots hold different nodes, each in range. */
  lemma Apart(nodes: seq<Links>, min: nat, slots: seq<nat>, a: nat, b: nat)
    requires Shape(nodes, min, slots) && a != b
    ensures Slot(slots, a) < |nodes| || Slot(slots, a) == NULL
    ensures a < |slots| ==> Slot(slots, a) != NULL
    ensures Slot(slots, a) == Slot(slots, b) ==> Slot(slots, a) == NULL
  {
    if a < |slots| {
      assert LinkOk(nodes, slots, a);
    }
  }

  lemma LinksOf(nodes: seq<Links>, min: nat, slots: seq<nat>, k: nat)
    requires Shape(nodes, min, slots) && k < |slots|
    ensures 0 < slots[k] < |nodes|
    ensures nodes[slots[k]] == Links(Slot(slots, 2 * k + 1), Slot(slots, 2 * k + 2),
                                     if k == 0 then NULL else slots[Up(k)])
  {
    assert LinkOk(nodes, slots, k);
  }

  function Other(i: nat, j: nat): nat {
    if j == 2 * i + 1 then 2 * i + 2 else 2 * i + 1
  }

  lemma ShapeIsFamily(nodes: seq<Links>, min: nat, slots: seq<nat>, i: nat, j: nat)
    requires Shape(nodes, min, slots) && j < |slots| && (j == 2 * i + 1 || j == 2 * i + 2)
    ensures Family(nodes, slots[i], slots[j])
    ensures Sibling(nodes, slots[i], slots[j]) == Slot(slots, Other(i, j))
  {
    var o, l, r := Other(i, j), 2 * j + 1, 2 * j + 2;
    var g := if i > 0 then Up(i) else |slots|;
    UpOf(i);
    LinksOf(nodes, min, slots, i);
    LinksOf(nodes, min, slots, j);
    if i > 0 {
      LinksOf(nodes, min, slots, g);
    }
    AllApart(nodes, min, slots, i, j, o, l, r, g);
    Apart(nodes, min, slots, j, o);
    if i > 0 {
      Apart(nodes, min, slots, i, Other(g, i));
    }
    hide Shape;
    assert Slot(slots, g) == nodes[slots[i]].parent;
  }

  predicate Clear(nodes: seq<Links>, slots: seq<nat>, i: nat, j: nat, a: nat)
    requires i < |slots| && j < |slots|
  {
    Slot(slots, a) != slots[i] && Slot(slots, a) != slots[j] && Slot(slots, a) < |nodes|
  }

  lemma IsClear(nodes: seq<Links>, min: nat, slots: seq<nat>, i: nat, j: nat, a: nat)
    requires Shape(nodes, min, slots) && i < |slots| && j < |slots| && a != i && a != j
    ensures Clear(nodes, slots, i, j, a)
  {
    Apart(nodes, min, slots, a, i);
    Apart(nodes, min, slots, a, j);
    LinksOf(nodes, min, slots, i);
    LinksOf(nodes, min, slots, j);
  }

  lemma AllApart(nodes: seq<Links>, min: nat, slots: seq<nat>, i: nat, j: nat, o: nat, l: nat, r: nat, g: nat)
    requires Shape(nodes, min, slots) && i < |slots| && j < |slots|
    requires i != j && i != o && i != l && i != r && i != g && j != o && j != l && j != r && j != g
    requires (o != l && o != r && l != r) && ((g != o && g != l && g != r) || g >= |slots|)
    ensures slots[i] != slots[j] && Clear(nodes, slots, i, j, o) && Clear(nodes, slots, i, j, l)
    ensures Clear(nodes, slots, i, j, r) && Clear(nodes, slots, i, j, g)
    ensures Slot(slots, o) != NULL ==>
              Slot(slots, o) != Slot(slots, l) && Slot(slots, o) != Slot(slots, r) && Slot(slots, o) != Slot(slots, g)
    ensures Slot(slots, l) != NULL ==> Slot(slots, l) != Slot(slots, r) && Slot(slots, l) != Slot(slots, g)
    ensures Slot(slots, r) != NULL ==> Slot(slots, r) != Slot(slots, g)
  {
    IsClear(nodes, min, slots, i, j, o);
    IsClear(nodes, min, slots, i, j, l);
    IsClear(nodes, min, slots, i, j, r);
    IsClear(nodes, min, slots, i, j, g);
    Apart(nodes, min, slots, o, l);
    Apart(nodes, min, slots, o, r);
    Apart(nodes, min, slots, l, r);
    if g < |slots| {
      Apart(nodes, min, slots, o, g);
      Apart(nodes, min, slots, l, g);
      Apart(nodes, min, slots, r, g);
    }
    Apart(nodes, min, slots, i, j);
    hide Shape;
  }

  /** In terms of slots: what a swap does to the tree. */
  lemma SwapKeepsShape(nodes: seq<Links>, min: nat, slots: seq<nat>, i: nat, j: nat, nodes': seq<Links>, min': nat)
    requires Shape(nodes, min, slots) && j < |slots| && (j == 2 * i + 1 || j == 2 * i + 2) && |nodes'| == |nodes|
    requires slots[i] < |nodes| && slots[j] < |nodes|
    requires forall x :: 0 <= x < |nodes| ==> nodes'[x] == NewLinks(nodes, slots[i], slots[j], x)
    requires min' == if nodes[slots[i]].parent == NULL then slots[j] else min
    ensures Shape(nodes', min', Swapped(slots, i, j))
  {
    var slots' := Swapped(slots, i, j);
    LinksOf(nodes, min, slots, i);
    forall k | 0 <= k < |slots'|
      ensures LinkOk(nodes', slots', k)
    {
      SwapKeepsLink(nodes, min, slots, i, j, nodes', k);
    }
    UpOf(i);
    if i > 0 {
      LinksOf(nodes, min, slots, Up(i));
    }
  }

  lemma SwapKeepsLink(nodes: seq<Links>, min: nat, slots: seq<nat>, i: nat, j: nat, nodes': seq<Links>, k: nat)
    requires Shape(nodes, min, slots) && j < |slots| && (j == 2 * i + 1 || j == 2 * i + 2) && |nodes'| == |nodes|
    requires slots[i] < |nodes| && slots[j] < |nodes|
    requires forall x :: 0 <= x < |nodes| ==> nodes'[x] == NewLinks(nodes, slots[i], slots[j], x)
    requires k < |slots|
    ensures LinkOk(nodes', Swapped(slots, i, j), k)
  {
    if k == i {
      SwapsLower(nodes, min, slots, i, j, nodes');
    } else if k == j {
      SwapsUpper(nodes, min, slots, i, j, nodes');
    } else {
      SwapKeepsOther(nodes, min, slots, i, j, nodes', k);
    }
  }

  lemma SwapsLower(nodes: seq<Links>, min: nat, slots: seq<nat>, i: nat, j: nat, nodes': seq<Links>)
    requires Shape(nodes, min, slots) && j < |slots| && (j == 2 * i + 1 || j == 2 * i + 2) && |nodes'| == |nodes|
    requires slots[i] < |nodes| && slots[j] < |nodes|
    requires forall x :: 0 <= x < |nodes| ==> nodes'[x] == NewLinks(nodes, slots[i], slots[j], x)
    ensures LinkOk(nodes', Swapped(slots, i, j), i)
  {
    UpOf(i);
    LinksOf(nodes, min, slots, i);
    LinksOf(nodes, min, slots, j);
    Apart(nodes, min, slots, j, Other(i, j));
    hide Shape, Up;
  }

  lemma SwapsUpper(nodes: seq<Links>, min: nat, slots: seq<nat>, i: nat, j: nat, nodes': seq<Links>)
    requires Shape(nodes, min, slots) && j < |slots| && (j == 2 * i + 1 || j == 2 * i + 2) && |nodes'| == |nodes|
    requires slots[i] < |nodes| && slots[j] < |nodes|
    requires forall x :: 0 <= x < |nodes| ==> nodes'[x] == NewLinks(nodes, slots[i], slots[j], x)
    ensures LinkOk(nodes', Swapped(slots, i, j), j)
  {
    UpOf(i);
    LinksOf(nodes, min, slots, i);
    LinksOf(nodes, min, slots, j);
    Apart(nodes, min, slots, i, j);
    hide Shape, Up;
  }

  lemma SwapKeepsOther(nodes: seq<Links>, min: nat, slots: seq<nat>, i: nat, j: nat, nodes': seq<Links>, k: nat)
    requires Shape(nodes, min, slots) && j < |slots| && (j == 2 * i + 1 || j == 2 * i + 2) && |nodes'| == |nodes|
    requires slots[i] < |nodes| && slots[j] < |nodes|
    requires forall x :: 0 <= x < |nodes| ==> nodes'[x] == NewLinks(nodes, slots[i], slots[j], x)
    requires k < |slots| && k != i && k != j
    ensures LinkOk(nodes', Swapped(slots, i, j), k)
  {
    var o, l, r, slots' := Other(i, j), 2 * j + 1, 2 * j + 2, Swapped(slots, i, j);
    UpOf(i);
    UpOf(j);
    UpOf(k);
    LinksOf(nodes, min, slots, k);
    LinksOf(nodes, min, slots, i);
    LinksOf(nodes, min, slots, j);
    NewLinksOf(nodes, min, slots, i, j, k);
    hide Shape, Up, NewLinks;
    assert k > 0 ==> slots'[Up(k)] == if Up(k) == i then slots[j] else if Up(k) == j then slots[i] else slots[Up(k)];
    assert Slot(slots', 2 * k + 1) == if 2 * k + 1 == i then slots[j] else Slot(slots, 2 * k + 1);
    assert Slot(slots', 2 * k + 2) == if 2 * k + 2 == i then slots[j] else Slot(slots, 2 * k + 2);
    hide Slot, Swapped;
  }

  /** What the swap makes of a node that is not one of the two. */
  lemma NewLinksOf(nodes: seq<Links>, min: nat, slots: seq<nat>, i: nat, j: nat, k: nat)
    requires Shape(nodes, min, slots) && j < |slots| && (j == 2 * i + 1 || j == 2 * i + 2)
    requires slots[i] < |nodes| && slots[j] < |nodes| && k < |slots| && k != i && k != j && slots[k] < |nodes|
    ensures var before, after := nodes[slots[k]], NewLinks(nodes, slots[i], slots[j], slots[k]);
            after == if k == Other(i, j) then before.(parent := slots[j])
                    else if k == 2 * j + 1 || k == 2 * j + 2 then before.(parent := slots[i])
                    else if i > 0 && k == Up(i) then
                      (if i == 2 * k + 1 then before.(left := slots[j]) else before.(right := slots[j]))
                    else before
  {
    var o, l, r := Other(i, j), 2 * j + 1, 2 * j + 2;
    UpOf(i);
    LinksOf(nodes, min, slots, k);
    LinksOf(nodes, min, slots, i);
    LinksOf(nodes, min, slots, j);
    Apart(nodes, min, slots, k, i);
    Apart(nodes, min, slots, k, j);
    Apart(nodes, min, slots, j, o);
    if k != o {
      Apart(nodes, min, slots, k, o);
    }
    if k != l {
      Apart(nodes, min, slots, k, l);
    }
    if k != r {
      Apart(nodes, min, slots, k, r);
    }
    if i > 0 && k != Up(i) {
      Apart(nodes, min, slots, k, Up(i));
    }
    if i > 0 {
      Apart(nodes, min, slots, i, Other(Up(i), i));
    }
    hide Shape, Up;
  }

  // ---------------------------------------------------------------------------------------------
  // Adding, taking away and replacing a leaf or a node

  lemma AppendShape(nodes: seq<Links>, min: nat, slots: seq<nat>, n: nat, nodes': seq<Links>, min': nat)
    requires Shape(nodes, min, slots) && 0 < n < |nodes| && n !in slots && |nodes'| == |nodes|
    requires var m := |slots|;
             if m == 0 then min' == n && nodes' == nodes[n := Links(NULL, NULL, NULL)]
             else
               && min' == min && slots[Up(m)] < |nodes|
               && nodes' == nodes[n := Links(NULL, NULL, slots[Up(m)])][slots[Up(m)] :=
                                 if m % 2 == 0 then nodes[slots[Up(m)]].(right := n)
                                 else nodes[slots[Up(m)]].(left := n)]
    ensures Shape(nodes', min', slots + [n])
  {
    var m, slots' := |slots|, slots + [n];
    UpOf(m);
    forall k | 0 <= k < |slots'|
      ensures LinkOk(nodes', slots', k)
    {
      if k < m {
        LinksOf(nodes, min, slots, k);
        UpOf(k);
        assert m > 0 && slots[Up(m)] == slots[k] ==> k == Up(m);
      }
    }
  }

  lemma UnlinkShape(nodes: seq<Links>, min: nat, slots: seq<nat>, nodes': seq<Links>, min': nat)
    requires Shape(nodes, min, slots) && slots != [] && |nodes'| == |nodes|
    requires var m := |slots| - 1;
             if m == 0 then min' == NULL && nodes' == nodes
             else
               && min' == min && slots[Up(m)] < |nodes|
               && nodes' == nodes[slots[Up(m)] :=
                                 if m % 2 == 0 then nodes[slots[Up(m)]].(right := NULL)
                                 else nodes[slots[Up(m)]].(left := NULL)]
    ensures Shape(nodes', min', slots[..|slots| - 1])
  {
    var m, slots' := |slots| - 1, slots[..|slots| - 1];
    UpOf(m);
    forall k | 0 <= k < |slots'|
      ensures LinkOk(nodes', slots', k)
    {
      LinksOf(nodes, min, slots, k);
      UpOf(k);
      assert m > 0 && slots[Up(m)] == slots[k] ==> k == Up(m);
    }
  }

  /** What node x links to once `c`, from outside the tree, has taken the place of p. */
  function Substituted(nodes: seq<Links>, p: nat, c: nat, x: nat): Links
    requires p < |nodes| && c < |nodes| && x < |nodes|
  {
    if x == c then nodes[p]
    else if x == NULL then nodes[x]
    else if x == nodes[p].left || x == nodes[p].right then nodes[x].(parent := c)
    else if x == nodes[p].parent then
      if nodes[x].left == p then nodes[x].(left := c) else nodes[x].(right := c)
    else nodes[x]
  }

  lemma SubstituteShape(nodes: seq<Links>, min: nat, slots: seq<nat>, i: nat, c: nat, nodes': seq<Links>, min': nat)
    requires Shape(nodes, min, slots) && i < |slots| && 0 < c < |nodes| && c !in slots && |nodes'| == |nodes|
    requires slots[i] < |nodes|
    requires forall x :: 0 <= x < |nodes| ==> nodes'[x] == Substituted(nodes, slots[i], c, x)
    requires min' == if nodes[slots[i]].parent == NULL then c else min
    ensures Shape(nodes', min', slots[i := c])
  {
    var slots' := slots[i := c];
    LinksOf(nodes, min, slots, i);
    UpOf(i);
    if i > 0 {
      LinksOf(nodes, min, slots, Up(i));
    }
    forall k | 0 <= k < |slots'|
      ensures LinkOk(nodes', slots', k)
    {
      if k != i {
        SubstituteKeepsLink(nodes, min, slots, i, c, nodes', k);
      }
    }
  }

  lemma SubstituteKeepsLink(nodes: seq<Links>, min: nat, slots: seq<nat>, i: nat, c: nat, nodes': seq<Links>, k: nat)
    requires Shape(nodes, min, slots) && i < |slots| && 0 < c < |nodes| && c !in slots && |nodes'| == |nodes|
    requires slots[i] < |nodes|
    requires forall x :: 0 <= x < |nodes| ==> nodes'[x] == Substituted(nodes, slots[i], c, x)
    requires k < |slots| && k != i
    ensures LinkOk(nodes', slots[i := c], k)
  {
    var l, r := 2 * i + 1, 2 * i + 2;
    LinksOf(nodes, min, slots, i);
    LinksOf(nodes, min, slots, k);
    UpOf(i);
    UpOf(k);
    assert slots[k] != c;
    Apart(nodes, min, slots, k, i);
    if k != l {
      Apart(nodes, min, slots, k, l);
    }
    if k != r {
      Apart(nodes, min, slots, k, r);
    }
    if i > 0 && k != Up(i) {
      Apart(nodes, min, slots, k, Up(i));
    }
    if i > 0 {
      Apart(nodes, min, slots, i, Other(Up(i), i));
    }
    hide Shape, Up;
    var slots' := slots[i := c];
    assert Slot(slots', 2 * k + 1) == if 2 * k + 1 == i then c else Slot(slots, 2 * k + 1);
    assert Slot(slots', 2 * k + 2) == if 2 * k + 2 == i then c else Slot(slots, 2 * k + 2);
  }

  // ---------------------------------------------------------------------------------------------
  // Order on the way up and on the way down

  function Nodes(slots: seq<nat>): set<nat> {
    set n | n in slots
  }

  /** In order but for the node at slot i, which may have to go up. */
  ghost predicate MayRise(rank: Rank, slots: seq<nat>, i: nat) {
    && i < |slots|
    && (forall k :: 0 < k < |slots| && k != i ==> InOrder(rank, slots, k))
    && (i > 0 ==> forall k :: 0 < k < |slots| && Up(k) == i ==> !Less(rank, slots[k], slots[Up(i)]))
  }

  /** In order but for the node at slot i, which may have to go either way. */
  ghost predicate MaySink(rank: Rank, slots: seq<nat>, i: nat) {
    && i < |slots|
    && (forall k :: 0 < k < |slots| && k != i && Up(k) != i ==> InOrder(rank, slots, k))
    && (i > 0 ==> forall k :: 0 < k < |slots| && Up(k) == i ==> !Less(rank, slots[k], slots[Up(i)]))
  }

  ghost predicate Ranked(rank: Rank, slots: seq<nat>) {
    && (forall k :: 0 <= k < |slots| ==> slots[k] < |rank|)
    && forall a, b :: 0 <= a < b < |slots| ==> rank[slots[a]] != rank[slots[b]]
  }

  lemma RisesOne(rank: Rank, slots: seq<nat>, i: nat)
    requires Ranked(rank, slots) && MayRise(rank, slots, i) && i > 0 && Less(rank, slots[i], slots[Up(i)])
    ensures MayRise(rank, Swapped(slots, Up(i), i), Up(i))
  {
    var g, slots' := Up(i), Swapped(slots, Up(i), i);
    UpOf(i);
    UpOf(g);
    forall k | 0 < k < |slots| && k != g
      ensures InOrder(rank, slots', k)
    {
      UpOf(k);
      if k != i {
        assert InOrder(rank, slots, k);
      }
    }
    forall k | 0 < k < |slots| && Up(k) == g && g > 0
      ensures !Less(rank, slots'[k], slots'[Up(g)])
    {
      assert InOrder(rank, slots, g);
      if k != i {
        assert InOrder(rank, slots, k);
      }
    }
  }

  lemma SinksOne(rank: Rank, slots: seq<nat>, i: nat, j: nat)
    requires Ranked(rank, slots) && MaySink(rank, slots, i) && j < |slots| && (j == 2 * i + 1 || j == 2 * i + 2)
    requires Less(rank, slots[j], slots[i]) && (Other(i, j) < |slots| ==> !Less(rank, slots[Other(i, j)], slots[j]))
    ensures MaySink(rank, Swapped(slots, i, j), j)
  {
    hide Less, Ranked;
    var slots' := Swapped(slots, i, j);
    UpOf(i);
    forall k | 0 < k < |slots| && k != j && Up(k) != j
      ensures InOrder(rank, slots', k)
    {
      UpOf(k);
      if k != i && Up(k) != i {
        assert InOrder(rank, slots, k);
      }
    }
    forall k | 0 < k < |slots| && Up(k) == j
      ensures !Less(rank, slots'[k], slots'[Up(j)])
    {
      UpOf(k);
      assert InOrder(rank, slots, k);
    }
  }

  lemma SwapKeepsNodes(rank: Rank, slots: seq<nat>, i: nat, j: nat)
    requires i < |slots| && j < |slots| && i != j
    ensures Nodes(Swapped(slots, i, j)) == Nodes(slots)
    ensures Ranked(rank, slots) ==> Ranked(rank, Swapped(slots, i, j))
  {
    var slots' := Swapped(slots, i, j);
    assert forall k :: 0 <= k < |slots| ==> slots'[if k == i then j else if k == j then i else k] == slots[k];
  }

  class Heap {
    var nodes: seq<Links>
    var min: nat
    var nelts: nat
    ghost var slots: seq<nat>

    ghost predicate Valid()
      reads this
    {
      Shape(nodes, min, slots) && nelts == |slots|
    }

    /** An empty heap for nodes 1 to n. */
    constructor (n: nat)
      ensures Valid() && slots == [] && |nodes| == n + 1
    {
      nodes, min, nelts, slots := seq(n + 1, _ => Links(NULL, NULL, NULL)), NULL, 0, [];
    }

    method SetParent(n: nat, p: nat)
      requires n < |nodes|
      modifies `nodes
      ensures nodes == if n == NULL then old(nodes) else old(nodes)[n := old(nodes)[n].(parent := p)]
    {
      if n != NULL {
        nodes := nodes[n := nodes[n].(parent := p)];
      }
    }

    /** Swaps a parent with a child of it: the child moves up a row. */
    method NodeSwap(parent: nat, child: nat)
      requires Family(nodes, parent, child)
      modifies `nodes, `min
      ensures |nodes| == |old(nodes)|
      ensures forall x :: 0 <= x < |nodes| ==> nodes[x] == NewLinks(old(nodes), parent, child, x)
      ensures min == if old(nodes)[parent].parent == NULL then child else old(min)
    {
      ghost var was := nodes;
      ExchangeLinks(parent, child);
      ghost var exchanged := nodes;
      ExchangeLeaves(was, parent, child, exchanged);
      hide Family, NewLinks;
      TellChildren(parent);
      ghost var told := nodes;
      TellParent(parent, child);
      SwapInParts(was, parent, child, exchanged, told, nodes);
    }

    method TellChildren(n: nat)
      requires n < |nodes| && nodes[n].left < |nodes| && nodes[n].right < |nodes|
      requires n != nodes[n].left && n != nodes[n].right && (nodes[n].left != NULL ==> nodes[n].left != nodes[n].right)
      modifies `nodes
      ensures |nodes| == |old(nodes)|
      ensures forall x :: 0 <= x < |nodes| ==>
                nodes[x] == if x != NULL && (x == old(nodes)[n].left || x == old(nodes)[n].right)
                            then old(nodes)[x].(parent := n) else old(nodes)[x]
    {
      SetParent(nodes[n].left, n);
      SetParent(nodes[n].right, n);
    }

    method TellParent(parent: nat, child: nat)
      requires child < |nodes| && nodes[child].parent < |nodes|
      modifies `nodes, `min
      ensures |nodes| == |old(nodes)| && min == if old(nodes)[child].parent == NULL then child else old(min)
      ensures var N, g := old(nodes), old(nodes)[child].parent;
              forall x :: 0 <= x < |nodes| ==>
                nodes[x] == if x == NULL || x != g then N[x]
                            else if N[x].left == parent then N[x].(left := child) else N[x].(right := child)
    {
      var g := nodes[child].parent;
      if g == NULL {
        min := child;
      } else if nodes[g].left == parent {
        nodes := nodes[g := nodes[g].(left := child)];
      } else {
        nodes := nodes[g := nodes[g].(right := child)];
      }
    }

    /** The links of the two themselves, and the sibling's. */
    method ExchangeLinks(parent: nat, child: nat)
      requires Family(nodes, parent, child)
      modifies `nodes
      ensures Exchanged(old(nodes), parent, child, nodes)
    {
      nodes := nodes[parent := nodes[child]][child := nodes[parent]];
      SetParent(parent, child);
      var sibling;
      if nodes[child].left == child {
        nodes := nodes[child := nodes[child].(left := parent)];
        sibling := nodes[child].right;
      } else {
        nodes := nodes[child := nodes[child].(right := parent)];
        sibling := nodes[child].left;
      }
      SetParent(sibling, child);
    }

    /** The swap, told where in the tree it happens. */
    method SwapAt(parent: nat, child: nat, ghost i: nat, ghost j: nat)
      requires Valid() && j < |slots| && (j == 2 * i + 1 || j == 2 * i + 2) && slots[i] == parent && slots[j] == child
      modifies this
      ensures Valid() && slots == Swapped(old(slots), i, j) && |nodes| == |old(nodes)|
    {
      ShapeIsFamily(nodes, min, slots, i, j);
      ghost var nodes0, min0 := nodes, min;
      hide Shape, Family, NewLinks;
      NodeSwap(parent, child);
      SwapKeepsShape(nodes0, min0, slots, i, j, nodes, min);
      slots := Swapped(slots, i, j);
    }

    /** Walks a node up until its parent does not come after it. */
    method SiftUp(rank: Rank, n: nat, ghost i0: nat)
      requires Valid() && Ranked(rank, slots) && MayRise(rank, slots, i0) && slots[i0] == n
      modifies this
      ensures Valid() && Ranked(rank, slots) && Ordered(rank, slots)
      ensures Nodes(slots) == Nodes(old(slots)) && |nodes| == |old(nodes)| && |slots| == |old(slots)|
    {
      ghost var i: nat := i0;
      LinksOf(nodes, min, slots, i);
      hide Shape, Ranked, Nodes, Up, MayRise;
      MayRiseAt(rank, slots, i);
      while nodes[n].parent != NULL && Less(rank, n, nodes[n].parent)
        invariant Valid() && Ranked(rank, slots) && MayRise(rank, slots, i) && i < |slots| && slots[i] == n < |nodes|
        invariant nodes[n].parent == if i == 0 then NULL else slots[Up(i)]
        invariant Nodes(slots) == Nodes(old(slots)) && |nodes| == |old(nodes)| && |slots| == |old(slots)|
        decreases i
      {
        UpOf(i);
        RisesOne(rank, slots, i);
        SwapKeepsNodes(rank, slots, Up(i), i);
        SwapAt(nodes[n].parent, n, Up(i), i);
        i := Up(i);
        LinksOf(nodes, min, slots, i);
      }
      RisesNoMore(rank, nodes, min, slots, i);
    }

    /** Walks a node down until no child comes before it. */
    method SiftDown(rank: Rank, n: nat, ghost i0: nat) returns (ghost i: nat)
      requires Valid() && Ranked(rank, slots) && MaySink(rank, slots, i0) && slots[i0] == n
      modifies this
      ensures Valid() && Ranked(rank, slots) && MayRise(rank, slots, i) && slots[i] == n
      ensures Nodes(slots) == Nodes(old(slots)) && |nodes| == |old(nodes)| && |slots| == |old(slots)|
    {
      i := i0;
      while true
        invariant Valid() && Ranked(rank, slots) && MaySink(rank, slots, i) && slots[i] == n
        invariant Nodes(slots) == Nodes(old(slots)) && |nodes| == |old(nodes)| && |slots| == |old(slots)|
        decreases |slots| - i
      {
        hide Shape, Ranked, Nodes, Up;
        var smallest;
        ghost var j;
        smallest, j := Smallest(rank, n, i);
        if smallest == n {
          Settles(rank, slots, i);
          return;
        }
        SinksOne(rank, slots, i, j);
        SwapKeepsNodes(rank, slots, i, j);
        SwapAt(n, smallest, i, j);
        i := j;
      }
    }

    /** The least of a node and its children; `j` is the slot of the child that it is. */
    method Smallest(rank: Rank, n: nat, ghost i: nat) returns (smallest: nat, ghost j: nat)
      requires Valid() && Ranked(rank, slots) && i < |slots| && slots[i] == n
      ensures smallest == n ==>
                && (2 * i + 1 < |slots| ==> !Less(rank, slots[2 * i + 1], slots[i]))
                && (2 * i + 2 < |slots| ==> !Less(rank, slots[2 * i + 2], slots[i]))
      ensures smallest != n ==>
                && (j == 2 * i + 1 || j == 2 * i + 2) && j < |slots| && slots[j] == smallest
                && Less(rank, slots[j], slots[i])
                && (Other(i, j) < |slots| ==> !Less(rank, slots[Other(i, j)], slots[j]))
    {
      LinksOf(nodes, min, slots, i);
      ChildrenAre(nodes, min, slots, i);
      hide Shape, Up, Ranked;
      smallest, j := n, i;
      if nodes[n].left != NULL && Less(rank, nodes[n].left, smallest) {
        smallest, j := nodes[n].left, 2 * i + 1;
      }
      if nodes[n].right != NULL && Less(rank, nodes[n].right, smallest) {
        smallest, j := nodes[n].right, 2 * i + 2;
      }
    }

    /** Follows the path to slot `n0`, counted from 1: the node there and the one above it. */
    method Walk(n0: nat) returns (above: nat, at: nat, right: bool)
      requires Valid() && 1 <= n0 <= nelts + 1
      ensures at == Slot(slots, n0 - 1)
      ensures if n0 == 1 then above == NULL
              else Up(n0 - 1) < |slots| && above == slots[Up(n0 - 1)] != NULL && right == (n0 % 2 == 1)
    {
      var path, k := PathTo(n0);
      ghost var c: nat := 1;
      above, at, right := NULL, min, false;
      while k > 0
        invariant c >= 1 && Descend(c, path, k) == n0 && at == Slot(slots, c - 1)
        invariant if c == 1 then above == NULL
                  else Up(c - 1) < |slots| && above == slots[Up(c - 1)] != NULL && right == (c % 2 == 1)
        decreases k
      {
        DescendGrows(c, path, k);
        LinksOf(nodes, min, slots, c - 1);
        UpOf(c - 1);
        above := at;
        right := path % 2 == 1;
        at := if right then nodes[at].right else nodes[at].left;
        c := 2 * c + path % 2;
        path, k := path / 2, k - 1;
      }
    }

    method SetLink(above: nat, right: bool, n: nat)
      requires above < |nodes|
      modifies `nodes, `min
      ensures if above == NULL then min == n && nodes == old(nodes)
              else
                min == old(min) && nodes == old(nodes)[above := if right then old(nodes)[above].(right := n)
                                                                else old(nodes)[above].(left := n)]
    {
      if above == NULL {
        min := n;
      } else if right {
        nodes := nodes[above := nodes[above].(right := n)];
      } else {
        nodes := nodes[above := nodes[above].(left := n)];
      }
    }

    /** Adds a node that is not in the heap. */
    method Insert(rank: Rank, n: nat)
      requires Valid() && Ordered(rank, slots) && Ranked(rank, slots + [n])
      requires 0 < n < |nodes| && n !in slots
      modifies this
      ensures Valid() && Ordered(rank, slots) && Ranked(rank, slots)
      ensures Nodes(slots) == Nodes(old(slots)) + {n} && |nodes| == |old(nodes)| && nelts == old(nelts) + 1
    {
      ghost var nodes0, min0 := nodes, min;
      var above, at, right := Walk(1 + nelts);
      if above != NULL {
        LinksOf(nodes, min, slots, Up(nelts));
      }
      nodes := nodes[n := Links(NULL, NULL, above)];
      SetLink(above, right, n);
      nelts := nelts + 1;
      AppendShape(nodes0, min0, slots, n, nodes, min);
      AppendRanks(rank, slots, n);
      slots := slots + [n];
      SiftUp(rank, n, nelts - 1);
    }

    /** Takes away any node: the last one takes its place and finds its own. */
    method Remove(rank: Rank, n: nat)
      requires Valid() && Ordered(rank, slots) && Ranked(rank, slots) && (n in slots || nelts == 0)
      modifies this
      ensures Valid() && Ordered(rank, slots) && Ranked(rank, slots)
      ensures Nodes(slots) == Nodes(old(slots)) - {n} && |nodes| == |old(nodes)|
      ensures nelts == if old(nelts) == 0 then 0 else old(nelts) - 1
    {
      if nelts == 0 {
        return;
      }
      ghost var slots0 := slots;
      ghost var i := PlaceOf(slots, n);
      var last := Unlink();
      DropLast(rank, slots0, i);
      if last == n {
        return;
      }
      Substitute(n, last, i);
      SubstituteRanks(rank, slots0, i);
      i := SiftDown(rank, last, i);
      SiftUp(rank, last, i);
    }

    method Dequeue(rank: Rank)
      requires Valid() && Ordered(rank, slots) && Ranked(rank, slots)
      modifies this
      ensures Valid() && Ordered(rank, slots) && Ranked(rank, slots)
      ensures Nodes(slots) == Nodes(old(slots)) - {old(min)} && |nodes| == |old(nodes)|
    {
      assert slots != [] ==> slots[0] == min;
      Remove(rank, min);
    }

    /** Takes the last node out of the tree. */
    method Unlink() returns (last: nat)
      requires Valid() && nelts > 0
      modifies this
      ensures Valid() && slots == old(slots)[..|old(slots)| - 1] && last == old(slots)[|old(slots)| - 1]
      ensures |nodes| == |old(nodes)| && 0 < last < |nodes|
    {
      ghost var nodes0, min0 := nodes, min;
      var above, at, right := Walk(nelts);
      LinksOf(nodes, min, slots, nelts - 1);
      if above != NULL {
        LinksOf(nodes, min, slots, Up(nelts - 1));
      }
      nelts := nelts - 1;
      last := at;
      SetLink(above, right, NULL);
      UnlinkShape(nodes0, min0, slots, nodes, min);
      slots := slots[..|slots| - 1];
    }

    /** Puts a node from outside the tree in the place of one in it. */
    method Substitute(n: nat, child: nat, ghost i: nat)
      requires Valid() && i < |slots| && slots[i] == n && 0 < child < |nodes| && child !in slots
      modifies this
      ensures Valid() && slots == old(slots)[i := child] && |nodes| == |old(nodes)|
    {
      ghost var nodes0, min0 := nodes, min;
      SubstituteFamily(nodes, min, slots, i, child);
      hide Shape;
      nodes := nodes[child := nodes[n]];
      TellChildren(child);
      var g := nodes[n].parent;
      if g == NULL {
        min := child;
      } else if nodes[g].left == n {
        nodes := nodes[g := nodes[g].(left := child)];
      } else {
        nodes := nodes[g := nodes[g].(right := child)];
      }
      SubstituteShape(nodes0, min0, slots, i, child, nodes, min);
      slots := slots[i := child];
    }
  }

  lemma SubstituteFamily(nodes: seq<Links>, min: nat, slots: seq<nat>, i: nat, c: nat)
    requires Shape(nodes, min, slots) && i < |slots| && 0 < c < |nodes| && c !in slots
    ensures 0 < slots[i] < |nodes| && slots[i] != c
    ensures var l, r, g := nodes[slots[i]].left, nodes[slots[i]].right, nodes[slots[i]].parent;
            && l < |nodes| && r < |nodes| && g < |nodes| && c != l && c != r && c != g
            && (l != NULL ==> l != r && l != g) && (r != NULL ==> r != g)
            && l != slots[i] && r != slots[i] && g != slots[i]
  {
    var l, r, g := 2 * i + 1, 2 * i + 2, if i > 0 then Up(i) else |slots|;
    UpOf(i);
    LinksOf(nodes, min, slots, i);
    Apart(nodes, min, slots, l, r);
    Apart(nodes, min, slots, r, l);
    Apart(nodes, min, slots, l, i);
    Apart(nodes, min, slots, r, i);
    if i > 0 {
      Apart(nodes, min, slots, g, l);
      Apart(nodes, min, slots, g, r);
      Apart(nodes, min, slots, g, i);
    }
    hide Shape, Up;
  }

  lemma PlaceOf(slots: seq<nat>, n: nat) returns (i: nat)
    requires n in slots
    ensures i < |slots| && slots[i] == n
  {
    i :| 0 <= i < |slots| && slots[i] == n;
  }

  lemma DropLast(rank: Rank, slots: seq<nat>, i: nat)
    requires Ordered(rank, slots) && Ranked(rank, slots) && i < |slots|
    ensures var rest, last := slots[..|slots| - 1], slots[|slots| - 1];
            && Ordered(rank, rest) && Ranked(rank, rest) && last !in rest && Nodes(rest) == Nodes(slots) - {last}
            && (slots[i] == last ==> i == |slots| - 1)
  {
    var rest, last := slots[..|slots| - 1], slots[|slots| - 1];
    assert slots == rest + [last];
    forall k | 0 < k < |rest|
      ensures InOrder(rank, rest, k)
    {
      UpOf(k);
      assert InOrder(rank, slots, k);
    }
  }

  lemma NotLessTrans(rank: Rank, a: nat, b: nat, c: nat)
    requires a < |rank| && b < |rank| && c < |rank| && !Less(rank, a, b) && !Less(rank, b, c)
    ensures !Less(rank, a, c)
  {
  }

  /** The last node in the place of another: in order but for itself. */
  lemma SubstituteRanks(rank: Rank, slots: seq<nat>, i: nat)
    requires Ordered(rank, slots) && Ranked(rank, slots) && i < |slots| - 1
    ensures var after := slots[..|slots| - 1][i := slots[|slots| - 1]];
            Ranked(rank, after) && MaySink(rank, after, i) && Nodes(after) == Nodes(slots) - {slots[i]}
  {
    hide Less, Up;
    UpOf(i);
    var rest, last := slots[..|slots| - 1], slots[|slots| - 1];
    var after := rest[i := last];
    forall k | 0 < k < |after| && k != i && Up(k) != i
      ensures InOrder(rank, after, k)
    {
      UpOf(k);
      assert InOrder(rank, slots, k);
    }
    forall k | 0 < k < |after| && Up(k) == i && i > 0
      ensures !Less(rank, after[k], after[Up(i)])
    {
      UpOf(k);
      UpOf(i);
      assert InOrder(rank, slots, k) && InOrder(rank, slots, i);
      NotLessTrans(rank, slots[k], slots[i], slots[Up(i)]);
    }
    SubstituteNodes(slots, i);
  }

  lemma SubstituteNodes(slots: seq<nat>, i: nat)
    requires i < |slots| - 1 && forall a, b :: 0 <= a < b < |slots| ==> slots[a] != slots[b]
    ensures Nodes(slots[..|slots| - 1][i := slots[|slots| - 1]]) == Nodes(slots) - {slots[i]}
  {
    var m := |slots| - 1;
    var after := slots[..m][i := slots[m]];
    assert after[i] == slots[m];
    forall n | n in Nodes(slots) - {slots[i]}
      ensures n in Nodes(after)
    {
      var k :| 0 <= k < |slots| && slots[k] == n;
      assert after[if k == m then i else k] == n;
    }
  }

  lemma AppendRanks(rank: Rank, slots: seq<nat>, n: nat)
    requires Ordered(rank, slots) && Ranked(rank, slots + [n])
    ensures MayRise(rank, slots + [n], |slots|) && Nodes(slots + [n]) == Nodes(slots) + {n}
  {
    var slots' := slots + [n];
    forall k | 0 < k < |slots'| && k != |slots|
      ensures InOrder(rank, slots', k)
    {
      UpOf(k);
      assert InOrder(rank, slots, k);
    }
    forall k | 0 < k < |slots'|
      ensures Up(k) != |slots|
    {
      UpOf(k);
    }
  }

  lemma ChildrenAre(nodes: seq<Links>, min: nat, slots: seq<nat>, i: nat)
    requires Shape(nodes, min, slots) && i < |slots|
    ensures 2 * i + 1 < |slots| ==> slots[2 * i + 1] != NULL && slots[2 * i + 1] != slots[i]
    ensures 2 * i + 2 < |slots| ==> slots[2 * i + 2] != NULL && slots[2 * i + 2] != slots[i]
  {
    if 2 * i + 1 < |slots| {
      LinksOf(nodes, min, slots, 2 * i + 1);
    }
    if 2 * i + 2 < |slots| {
      LinksOf(nodes, min, slots, 2 * i + 2);
    }
  }

  lemma MayRiseAt(rank: Rank, slots: seq<nat>, i: nat)
    requires MayRise(rank, slots, i)
    ensures i < |slots|
  {
  }

  lemma RisesNoMore(rank: Rank, nodes: seq<Links>, min: nat, slots: seq<nat>, i: nat)
    requires Shape(nodes, min, slots) && MayRise(rank, slots, i) && slots[i] < |nodes|
    requires nodes[slots[i]].parent != NULL ==> !Less(rank, slots[i], nodes[slots[i]].parent)
    ensures Ordered(rank, slots)
  {
    LinksOf(nodes, min, slots, i);
    if i > 0 {
      UpOf(i);
      LinksOf(nodes, min, slots, Up(i));
    }
  }

  lemma Settles(rank: Rank, slots: seq<nat>, i: nat)
    requires MaySink(rank, slots, i)
    requires 2 * i + 1 < |slots| ==> !Less(rank, slots[2 * i + 1], slots[i])
    requires 2 * i + 2 < |slots| ==> !Less(rank, slots[2 * i + 2], slots[i])
    ensures MayRise(rank, slots, i)
  {
    forall k | 0 < k < |slots| && k != i
      ensures InOrder(rank, slots, k)
    {
      UpOf(k);
    }
  }

  /** The root comes before every other node. */
  lemma {:induction false} RootIsLeast(rank: Rank, slots: seq<nat>, k: nat)
    requires Ordered(rank, slots) && Ranked(rank, slots) && k < |slots|
    ensures !Less(rank, slots[k], slots[0])
    decreases k
  {
    if k > 0 {
      UpOf(k);
      assert InOrder(rank, slots, k);
      RootIsLeast(rank, slots, Up(k));
    }
  }
}
