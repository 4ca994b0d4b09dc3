/** The skip list under the memtable, one store at a time (LevelDB db/skiplist.h).  Keys are places
    in the comparator's order; nodes are numbered, the head is 0, and since no link leads back to
    the head a link of 0 is null. */
module SkipLists {
  type Key = real
  type Node = nat

  const MAX_HEIGHT: nat := 12
  const HEAD: Node := 0
  const NULL: Node := 0

  datatype Memory = Memory(keys: seq<Key>, next: seq<seq<Node>>, maxHeight: nat)

  /** The nodes of each level, in list order; for the specification only. */
  type Levels = seq<seq<Node>>

  // ---------------------------------------------------------------------------------------------
  // What a well-formed list is

  ghost predicate Sized(m: Memory) {
    && 0 < |m.keys| == |m.next| && 1 <= m.maxHeight <= MAX_HEIGHT
    && forall n :: 0 <= n < |m.next| ==> |m.next[n]| == MAX_HEIGHT
  }

  ghost function Before(l: seq<Node>, j: nat): Node
    requires j <= |l|
  {
    if j == 0 then HEAD else l[j - 1]
  }

  ghost predicate LinkOk(m: Memory, l: seq<Node>, i: nat, j: nat)
    requires Sized(m) && i < MAX_HEIGHT && j <= |l|
  {
    Before(l, j) < |m.keys| && m.next[Before(l, j)][i] == if j < |l| then l[j] else NULL
  }

  ghost predicate LevelOk(m: Memory, l: seq<Node>, i: nat)
    requires Sized(m) && i < MAX_HEIGHT
  {
    && (forall j :: 0 <= j < |l| ==> 0 < l[j] < |m.keys|)
    && (forall j :: 0 <= j <= |l| ==> LinkOk(m, l, i, j))
    && forall a, b :: 0 <= a < b < |l| ==> KeyAt(m, l, a) < KeyAt(m, l, b)
  }

  ghost function KeyAt(m: Memory, l: seq<Node>, j: nat): Key
    requires j < |l|
  {
    if l[j] < |m.keys| then m.keys[l[j]] else 0.0
  }

  /** Every level is linked in ascending order, and is a part of the level below. */
  ghost predicate Valid(m: Memory, levels: Levels) {
    && Sized(m) && |levels| == MAX_HEIGHT
    && (forall i :: 0 <= i < MAX_HEIGHT ==> LevelOk(m, levels[i], i))
    && (forall i :: m.maxHeight <= i < MAX_HEIGHT ==> levels[i] == [])
    && forall i :: 0 < i < MAX_HEIGHT ==> PartOf(levels[i], levels[i - 1])
  }

  ghost predicate PartOf(above: seq<Node>, below: seq<Node>) {
    forall n :: n in above ==> n in below
  }

  ghost function KeySet(m: Memory, levels: Levels): set<Key>
    requires Valid(m, levels)
  {
    set n | n in levels[0] :: KeyOf(m, n)
  }

  ghost function KeyOf(m: Memory, n: Node): Key {
    if n < |m.keys| then m.keys[n] else 0.0
  }

  // ---------------------------------------------------------------------------------------------
  // A search

  /** A search on its way: at node `x` of level `level`. */
  datatype Search = At(x: Node, level: nat) | Done(result: Node)

  ghost predicate OnItsWay(m: Memory, levels: Levels, target: Key, s: Search)
    requires Valid(m, levels)
  {
    s.At? ==> s.level < MAX_HEIGHT && (s.x == HEAD || (s.x in levels[s.level] && KeyOf(m, s.x) < target))
  }

  /** `n` is the first node of the list that does not come before `target`. */
  ghost predicate IsFirstFrom(m: Memory, levels: Levels, target: Key, n: Node)
    requires Valid(m, levels)
  {
    && (n == NULL ==> forall o :: o in levels[0] ==> KeyOf(m, o) < target)
    && (n != NULL ==> n in levels[0] && target <= KeyOf(m, n)
                      && forall o :: o in levels[0] ==> KeyOf(m, o) < target || KeyOf(m, n) <= KeyOf(m, o))
  }

  function KeyIsAfterNode(m: Memory, target: Key, n: Node): bool
    requires n < |m.keys|
  {
    n != NULL && m.keys[n] < target
  }

  /** One turn of FindGreaterOrEqual. */
  function Advance(m: Memory, target: Key, s: Search): Search {
    if s.At? && s.x < |m.next| && s.level < |m.next[s.x]| then
      var next := m.next[s.x][s.level];
      if next < |m.keys| && KeyIsAfterNode(m, target, next) then At(next, s.level)
      else if s.level == 0 then Done(next)
      else At(s.x, s.level - 1)
    else s
  }

  /** Where a node is in its level, and so where its link leads. */
  lemma LinkLeadsOn(m: Memory, l: seq<Node>, i: nat, x: Node) returns (j: nat)
    requires Sized(m) && i < MAX_HEIGHT && LevelOk(m, l, i) && (x == HEAD || x in l)
    ensures j <= |l| && Before(l, j) == x && x < |m.keys| && LinkOk(m, l, i, j)
    ensures j < |l| ==> m.next[x][i] == l[j] && l[j] != NULL
    ensures j == |l| ==> m.next[x][i] == NULL
  {
    if x == HEAD {
      j := 0;
    } else {
      var k :| 0 <= k < |l| && l[k] == x;
      j := k + 1;
    }
    assert LinkOk(m, l, i, j);
  }

  /** A turn of a search leaves it on its way; its last turn ends it at the right node. */
  lemma AdvanceIsRight(m: Memory, levels: Levels, target: Key, s: Search)
    requires Valid(m, levels) && s.At? && OnItsWay(m, levels, target, s)
    ensures OnItsWay(m, levels, target, Advance(m, target, s))
    ensures Advance(m, target, s).Done? ==> IsFirstFrom(m, levels, target, Advance(m, target, s).result)
  {
    var l := levels[s.level];
    assert LevelOk(m, l, s.level);
    var j := LinkLeadsOn(m, l, s.level, s.x);
    var next := m.next[s.x][s.level];
    if j < |l| && m.keys[next] < target {
      assert l[j] in l;
    } else if s.level == 0 {
      FirstIsNext(m, l, target, s.x, j);
    } else {
      assert PartOf(levels[s.level], levels[s.level - 1]);
    }
  }

  lemma FirstIsNext(m: Memory, l: seq<Node>, target: Key, x: Node, j: nat)
    requires Sized(m) && LevelOk(m, l, 0) && j <= |l| && x == Before(l, j)
    requires (x == HEAD || KeyOf(m, x) < target) && (j < |l| ==> target <= KeyOf(m, l[j]))
    ensures forall o :: o in l ==> KeyOf(m, o) < target || (j < |l| && KeyOf(m, l[j]) <= KeyOf(m, o))
  {
    forall o | o in l
      ensures KeyOf(m, o) < target || (j < |l| && KeyOf(m, l[j]) <= KeyOf(m, o))
    {
      var k :| 0 <= k < |l| && l[k] == o;
      assert KeyAt(m, l, k) == KeyOf(m, o);
      if k < j {
        assert KeyAt(m, l, j - 1) == KeyOf(m, x);
        assert k < j - 1 ==> KeyAt(m, l, k) < KeyAt(m, l, j - 1);
      } else {
        assert KeyAt(m, l, j) == KeyOf(m, l[j]);
        assert j < k ==> KeyAt(m, l, j) < KeyAt(m, l, k);
      }
    }
  }

  // ---------------------------------------------------------------------------------------------
  // Stores

  function SetNext(m: Memory, n: Node, i: nat, to: Node): Memory
    requires n < |m.next| && i < |m.next[n]|
  {
    var links: seq<Node> := m.next[n][i := to];
    m.(next := m.next[n := links])
  }

  /** What a reader in the middle of a search may rely on: nodes keep their keys and stay in their levels. */
  ghost predicate Grown(m: Memory, levels: Levels, m': Memory, levels': Levels) {
    && m.keys <= m'.keys && |levels'| == |levels|
    && forall i :: 0 <= i < |levels| ==> PartOf(levels[i], levels'[i])
  }

  lemma SearchGoesOn(m: Memory, levels: Levels, m': Memory, levels': Levels, target: Key, s: Search)
    requires Valid(m, levels) && Valid(m', levels') && Grown(m, levels, m', levels')
    requires OnItsWay(m, levels, target, s)
    ensures OnItsWay(m', levels', target, s)
  {
    if s.At? && s.x != HEAD {
      assert PartOf(levels[s.level], levels'[s.level]);
      var k :| 0 <= k < |levels[s.level]| && levels[s.level][k] == s.x;
      assert LevelOk(m, levels[s.level], s.level);
    }
  }

  function NewNode(m: Memory, key: Key): Memory {
    m.(keys := m.keys + [key], next := m.next + [seq(MAX_HEIGHT, _ => NULL)])
  }

  lemma NewNodeIsUnseen(m: Memory, levels: Levels, key: Key)
    requires Valid(m, levels)
    ensures Valid(NewNode(m, key), levels) && Grown(m, levels, NewNode(m, key), levels)
  {
    var m' := NewNode(m, key);
    forall i | 0 <= i < MAX_HEIGHT
      ensures LevelOk(m', levels[i], i)
    {
      var l := levels[i];
      assert LevelOk(m, l, i);
      forall j | 0 <= j <= |l|
        ensures LinkOk(m', l, i, j)
      {
        assert LinkOk(m, l, i, j);
      }
      assert forall a :: 0 <= a < |l| ==> KeyAt(m', l, a) == KeyAt(m, l, a);
    }
  }

  lemma HeightIsUnseen(m: Memory, levels: Levels, height: nat)
    requires Valid(m, levels) && m.maxHeight <= height <= MAX_HEIGHT
    ensures Valid(m.(maxHeight := height), levels)
  {
    var m' := m.(maxHeight := height);
    forall i | 0 <= i < MAX_HEIGHT
      ensures LevelOk(m', levels[i], i)
    {
      SameLevel(m, m', levels[i], i);
    }
  }

  /** A level depends only on its own links and keys. */
  lemma SameLevel(m: Memory, m': Memory, l: seq<Node>, i: nat)
    requires Sized(m) && Sized(m') && i < MAX_HEIGHT && LevelOk(m, l, i) && m'.keys == m.keys
    requires forall n :: 0 <= n < |m.next| && (n == HEAD || n in l) ==> m'.next[n][i] == m.next[n][i]
    ensures LevelOk(m', l, i)
  {
    forall j | 0 <= j <= |l|
      ensures LinkOk(m', l, i, j)
    {
      assert LinkOk(m, l, i, j);
    }
    assert forall a :: 0 <= a < |l| ==> KeyAt(m', l, a) == KeyAt(m, l, a);
  }

  /** Storing into a node that is not yet in a level changes nothing a reader can see. */
  lemma OwnStoreIsUnseen(m: Memory, levels: Levels, x: Node, i: nat, to: Node)
    requires Valid(m, levels) && 0 < x < |m.keys| && i < MAX_HEIGHT && x !in levels[i]
    ensures Valid(SetNext(m, x, i, to), levels)
  {
    var m' := SetNext(m, x, i, to);
    forall k | 0 <= k < MAX_HEIGHT
      ensures LevelOk(m', levels[k], k)
    {
      assert LevelOk(m, levels[k], k);
      SameLevel(m, m', levels[k], k);
    }
  }

  function InsertedAt(l: seq<Node>, j: nat, x: Node): seq<Node>
    requires j <= |l|
  {
    l[..j] + [x] + l[j..]
  }

  /** The store that publishes node x in level i, behind the node at place j. */
  lemma PublishInLevel(m: Memory, l: seq<Node>, i: nat, j: nat, x: Node)
    requires Sized(m) && i < MAX_HEIGHT && LevelOk(m, l, i) && j <= |l| && 0 < x < |m.keys| && x !in l
    requires m.next[x][i] == if j < |l| then l[j] else NULL
    requires 0 < j ==> KeyOf(m, l[j - 1]) < m.keys[x]
    requires j < |l| ==> m.keys[x] < KeyOf(m, l[j])
    ensures Before(l, j) < |m.keys| && LevelOk(SetNext(m, Before(l, j), i, x), InsertedAt(l, j, x), i)
  {
    assert LinkOk(m, l, i, j);
    var m', l' := SetNext(m, Before(l, j), i, x), InsertedAt(l, j, x);
    forall k | 0 <= k <= |l'|
      ensures LinkOk(m', l', i, k)
    {
      if k <= j {
        assert LinkOk(m, l, i, k);
        assert 0 < k < j ==> KeyAt(m, l, k - 1) < KeyAt(m, l, j - 1);
      } else {
        assert LinkOk(m, l, i, k - 1);
        assert 0 < j < k - 1 ==> KeyAt(m, l, j - 1) < KeyAt(m, l, k - 2);
      }
    }
    forall a, b | 0 <= a < b < |l'|
      ensures KeyAt(m', l', a) < KeyAt(m', l', b)
    {
      InsertKeepsOrder(m, l, j, x, a, b);
    }
  }

  lemma InsertKeepsOrder(m: Memory, l: seq<Node>, j: nat, x: Node, a: nat, b: nat)
    requires Sized(m) && (forall k :: 0 <= k < |l| ==> 0 < l[k] < |m.keys|) && x < |m.keys| && j <= |l|
    requires forall a, b :: 0 <= a < b < |l| ==> KeyAt(m, l, a) < KeyAt(m, l, b)
    requires 0 < j ==> KeyOf(m, l[j - 1]) < m.keys[x]
    requires j < |l| ==> m.keys[x] < KeyOf(m, l[j])
    requires a < b < |l| + 1
    ensures KeyAt(m, InsertedAt(l, j, x), a) < KeyAt(m, InsertedAt(l, j, x), b)
  {
    var l' := InsertedAt(l, j, x);
    var a' := if a <= j then a else a - 1;
    if a < j {
      assert KeyAt(m, l', a) == KeyAt(m, l, a);
      assert KeyAt(m, l, j - 1) == KeyOf(m, l[j - 1]);
    }
    if b > j {
      assert KeyAt(m, l', b) == KeyAt(m, l, b - 1);
      assert j < |l| ==> KeyAt(m, l, j) == KeyOf(m, l[j]);
    }
    if a > j {
      assert KeyAt(m, l', a) == KeyAt(m, l, a - 1);
    }
    if b < j {
      assert KeyAt(m, l', b) == KeyAt(m, l, b);
    }
  }

  /** Publishing a node in a level above one that it is already in. */
  lemma PublishKeepsValid(m: Memory, levels: Levels, i: nat, j: nat, x: Node)
    requires Valid(m, levels) && i < m.maxHeight && j <= |levels[i]| && 0 < x < |m.keys| && x !in levels[i]
    requires i > 0 ==> x in levels[i - 1]
    requires m.next[x][i] == if j < |levels[i]| then levels[i][j] else NULL
    requires 0 < j ==> KeyOf(m, levels[i][j - 1]) < m.keys[x]
    requires j < |levels[i]| ==> m.keys[x] < KeyOf(m, levels[i][j])
    ensures Before(levels[i], j) < |m.keys|
    ensures var m', levels' := SetNext(m, Before(levels[i], j), i, x), levels[i := InsertedAt(levels[i], j, x)];
            && Valid(m', levels') && Grown(m, levels, m', levels')
            && forall n :: n in levels'[i] <==> n in levels[i] || n == x
  {
    var l := levels[i];
    assert LevelOk(m, l, i) && LinkOk(m, l, i, j);
    var l' := InsertedAt(l, j, x);
    var m', levels' := SetNext(m, Before(l, j), i, x), levels[i := l'];
    PublishInLevel(m, l, i, j, x);
    InsertedIsThere(l, j, x);
    forall k | 0 <= k < MAX_HEIGHT
      ensures LevelOk(m', levels'[k], k)
    {
      if k != i {
        assert LevelOk(m, levels[k], k);
        SameLevel(m, m', levels[k], k);
      }
    }
    hide LevelOk, InsertedAt, SetNext;
    PartsKept(levels, i, x, levels');
  }

  /** A node comes into a level from the one below. */
  lemma PartsKept(levels: Levels, i: nat, x: Node, levels': Levels)
    requires |levels| == MAX_HEIGHT && i < MAX_HEIGHT && |levels'| == MAX_HEIGHT
    requires forall k :: 0 <= k < MAX_HEIGHT && k != i ==> levels'[k] == levels[k]
    requires (forall n :: n in levels'[i] <==> n in levels[i] || n == x) && (i > 0 ==> x in levels[i - 1])
    requires forall k :: 0 < k < MAX_HEIGHT ==> PartOf(levels[k], levels[k - 1])
    ensures forall k :: 0 < k < MAX_HEIGHT ==> PartOf(levels'[k], levels'[k - 1])
    ensures forall k :: 0 <= k < MAX_HEIGHT ==> PartOf(levels[k], levels'[k])
  {
    forall k | 0 < k < MAX_HEIGHT
      ensures PartOf(levels'[k], levels'[k - 1])
    {
      assert PartOf(levels[k], levels[k - 1]);
    }
  }

  lemma InsertedIsThere(l: seq<Node>, j: nat, x: Node)
    requires j <= |l|
    ensures forall n :: n in InsertedAt(l, j, x) <==> n in l || n == x
  {
    assert l == l[..j] + l[j..];
  }

  // ---------------------------------------------------------------------------------------------
  // The list

  class SkipList {
    var m: Memory
    ghost var levels: Levels

    ghost predicate Ok()
      reads this
    {
      Valid(m, levels)
    }

    constructor ()
      ensures Ok() && levels[0] == []
    {
      m := Memory([0.0], [seq(MAX_HEIGHT, _ => NULL)], 1);
      levels := seq(MAX_HEIGHT, _ => []);
      new;
      assert forall i, j :: 0 <= i < MAX_HEIGHT && j == 0 ==> LinkOk(m, levels[i], i, j);
    }

    /** The first node from `target` on; and on every level in use the last one before it. */
    method FindGreaterOrEqual(target: Key) returns (n: Node, prev: seq<Node>)
      requires Ok()
      ensures IsFirstFrom(m, levels, target, n)
      ensures |prev| == MAX_HEIGHT && forall i :: 0 <= i < m.maxHeight ==> ComesBefore(m, levels, target, i, prev[i])
    {
      hide LevelOk, IsFirstFrom;
      var x: Node, level: nat := HEAD, m.maxHeight - 1;
      prev := seq(MAX_HEIGHT, _ => NULL);
      ghost var j: nat := 0;
      while true
        invariant level < m.maxHeight && OnItsWay(m, levels, target, At(x, level)) && |prev| == MAX_HEIGHT
        invariant j <= |levels[level]| && Before(levels[level], j) == x
        invariant forall i :: level < i < m.maxHeight ==> ComesBefore(m, levels, target, i, prev[i])
        decreases level, |levels[level]| - j
      {
        TurnOf(m, levels, target, x, level, j);
        AdvanceIsRight(m, levels, target, At(x, level));
        var next := m.next[x][level];
        if KeyIsAfterNode(m, target, next) {
          x, j := next, j + 1;
        } else {
          prev := prev[level := x];
          if level == 0 {
            return next, prev;
          }
          level := level - 1;
          j := LinkLeadsOn(m, levels[level], level, x);
        }
      }
    }

    /** The last node before `target`, or the head. */
    method FindLessThan(target: Key) returns (x: Node)
      requires Ok()
      ensures ComesBefore(m, levels, target, 0, x)
    {
      hide LevelOk;
      var level: nat := m.maxHeight - 1;
      x := HEAD;
      ghost var j: nat := 0;
      while true
        invariant level < m.maxHeight && OnItsWay(m, levels, target, At(x, level))
        invariant j <= |levels[level]| && Before(levels[level], j) == x
        decreases level, |levels[level]| - j
      {
        TurnOf(m, levels, target, x, level, j);
        AdvanceIsRight(m, levels, target, At(x, level));
        var next := m.next[x][level];
        if next == NULL || m.keys[next] >= target {
          if level == 0 {
            return;
          }
          level := level - 1;
          j := LinkLeadsOn(m, levels[level], level, x);
        } else {
          x, j := next, j + 1;
        }
      }
    }

    /** The last node, or the head of an empty list. */
    method FindLast() returns (x: Node)
      requires Ok()
      ensures if levels[0] == [] then x == HEAD else x == levels[0][|levels[0]| - 1]
    {
      hide LevelOk;
      var level: nat := m.maxHeight - 1;
      x := HEAD;
      ghost var j: nat := 0;
      while true
        invariant level < m.maxHeight && (x == HEAD || x in levels[level])
        invariant j <= |levels[level]| && Before(levels[level], j) == x
        decreases level, |levels[level]| - j
      {
        LinkAt(m, levels, x, level, j);
        var next := m.next[x][level];
        if next == NULL {
          if level == 0 {
            return;
          }
          assert PartOf(levels[level], levels[level - 1]);
          level := level - 1;
          j := LinkLeadsOn(m, levels[level], level, x);
        } else {
          x, j := next, j + 1;
        }
      }
    }

    method Contains(key: Key) returns (r: bool)
      requires Ok()
      ensures r <==> exists o :: o in levels[0] && KeyOf(m, o) == key
    {
      var x, prev := FindGreaterOrEqual(key);
      NodesAreInRange(m, levels);
      return x != NULL && m.keys[x] == key;
    }

    /** Adds a key that is not in the list, at a height the caller has drawn.  `trace` is what the
        list looked like before, between and after the single stores. */
    method Insert(key: Key, height: nat) returns (ghost trace: seq<Moment>)
      requires Ok() && 1 <= height <= MAX_HEIGHT && forall o :: o in levels[0] ==> KeyOf(m, o) != key
      modifies this
      ensures Ok() && KeySet(m, levels) == old(KeySet(m, levels)) + {key}
      ensures IsHistory(trace) && trace[0] == Moment(old(m), old(levels)) && trace[|trace| - 1] == Moment(m, levels)
      ensures forall t :: 0 <= t < |trace| ==> OldOrNew(trace[t], trace[0], key)
      ensures AtHeight(old(Moment(m, levels)), Moment(m, levels), key, height)
    {
      ghost var before := Moment(m, levels);
      var found, prev := FindGreaterOrEqual(key);
      prev := RaiseHeight(height, prev);
      ghost var raised := Moment(m, levels);
      var x: Node := |m.keys|;
      m := NewNode(m, key);
      StartsGoing(before.m, levels, key, height, raised.m.maxHeight, prev);
      hide Valid, Grown, ComesBefore, IsHistory, KeysAt, Follows, Going, Recorded, KeySet, SetNext, AtHeight;
      trace := RecordStarts(before, raised, Moment(m, levels), key, height, x, prev);
      for i := 0 to height
        invariant Going(m, levels, key, height, x, prev, i, before)
        invariant Recorded(trace, before, Moment(m, levels), key)
        invariant m.maxHeight == raised.m.maxHeight
      {
        trace := Link(x, i, prev, key, height, before, trace);
      }
      EndsGoing(m, levels, key, height, x, prev, before, raised.m.maxHeight);
      RecordEnds(trace, before, Moment(m, levels), key);
    }

    /** Insertions one after the other, as a history of single stores from the first to the last. */
    method InsertAll(keys: seq<Key>, heights: seq<nat>) returns (ghost trace: seq<Moment>)
      requires Ok() && |keys| == |heights| && (forall i :: 0 <= i < |heights| ==> 1 <= heights[i] <= MAX_HEIGHT)
      requires forall i :: 0 <= i < |keys| ==> keys[i] !in KeySet(m, levels) && keys[i] !in keys[..i]
      modifies this
      ensures Ok() && KeySet(m, levels) == old(KeySet(m, levels)) + set k | k in keys
      ensures IsHistory(trace) && trace[0] == Moment(old(m), old(levels)) && trace[|trace| - 1] == Moment(m, levels)
    {
      trace := [Moment(m, levels)];
      hide Valid, Follows, AtHeight;
      for i := 0 to |keys|
        invariant Ok() && KeySet(m, levels) == old(KeySet(m, levels)) + set k | k in keys[..i]
        invariant IsHistory(trace) && trace[0] == Moment(old(m), old(levels)) && trace[|trace| - 1] == Moment(m, levels)
      {
        assert keys[i] !in KeySet(m, levels);
        NotAmongKeys(m, levels, keys[i]);
        ghost var more := Insert(keys[i], heights[i]);
        HistoriesJoin(trace, more);
        trace := trace + more[1..];
        assert keys[..i + 1] == keys[..i] + [keys[i]];
      }
      assert keys[..|keys|] == keys;
    }

    /** The two stores for level i: the new node's own link, and then the one that readers follow. */
    method Link(x: Node, i: nat, prev: seq<Node>, ghost key: Key, ghost height: nat, ghost before: Moment,
                ghost trace0: seq<Moment>)
      returns (ghost trace: seq<Moment>)
      requires Going(m, levels, key, height, x, prev, i, before) && i < height
      requires Recorded(trace0, before, Moment(m, levels), key)
      modifies this
      ensures Going(m, levels, key, height, x, prev, i + 1, before) && Recorded(trace, before, Moment(m, levels), key)
      ensures m.maxHeight == old(m).maxHeight
    {
      hide Valid, ComesBefore, IsHistory, KeysAt, Follows, Recorded, Grown;
      ghost var last := Moment(m, levels);
      OwnStoreGoesOn(m, levels, key, height, x, prev, i, before);
      StoreFollows(m, levels, x, i, m.next[prev[i]][i], levels);
      m := SetNext(m, x, i, m.next[prev[i]][i]);
      ghost var own := Moment(m, levels);
      ghost var levels' := PublishGoesOn(m, levels, key, height, x, prev, i, before);
      hide Going;
      StoreFollows(m, levels, prev[i], i, x, levels');
      m := SetNext(m, prev[i], i, x);
      levels := levels';
      trace := RecordTwo(trace0, before, last, own, Moment(m, levels), key, height, x, prev, i);
    }

    /** A list that becomes higher has nothing yet on its new levels. */
    method RaiseHeight(height: nat, prev0: seq<Node>) returns (prev: seq<Node>)
      requires Ok() && 1 <= height <= MAX_HEIGHT && |prev0| == MAX_HEIGHT
      modifies `m
      ensures m == old(m).(maxHeight := if height > old(m).maxHeight then height else old(m).maxHeight)
      ensures |prev| == MAX_HEIGHT && forall k :: 0 <= k < old(m).maxHeight ==> prev[k] == prev0[k]
      ensures forall k :: old(m).maxHeight <= k < height ==> prev[k] == HEAD
    {
      prev := prev0;
      if height > m.maxHeight {
        for i := m.maxHeight to height
          invariant m == old(m) && |prev| == MAX_HEIGHT
          invariant forall k :: 0 <= k < m.maxHeight ==> prev[k] == prev0[k]
          invariant forall k :: m.maxHeight <= k < i ==> prev[k] == HEAD
        {
          prev := prev[i := HEAD];
        }
        m := m.(maxHeight := height);
      }
    }
  }

  lemma NotAmongKeys(m: Memory, levels: Levels, key: Key)
    requires Valid(m, levels) && key !in KeySet(m, levels)
    ensures forall o :: o in levels[0] ==> KeyOf(m, o) != key
  {
  }

  /** The list at one moment. */
  datatype Moment = Moment(m: Memory, levels: Levels)

  /** The key has one new node, which is on the lowest `height` levels and on no other. */
  ghost predicate AtHeight(before: Moment, now: Moment, key: Key, height: nat) {
    && now.m.keys == before.m.keys + [key] && |now.levels| == |before.levels| == MAX_HEIGHT
    && (forall i, n :: 0 <= i < MAX_HEIGHT ==>
          (n in now.levels[i] <==> n in before.levels[i] || (i < height && n == |before.m.keys|)))
    && now.m.maxHeight == if height < before.m.maxHeight then before.m.maxHeight else height
  }

  ghost function KeysAt(t: Moment): set<Key> {
    if |t.levels| == MAX_HEIGHT then set n | n in t.levels[0] :: KeyOf(t.m, n) else {}
  }

  /** Each moment is well-formed, one store after the one before, and readers may go on from it. */
  ghost predicate IsHistory(trace: seq<Moment>) {
    && trace != []
    && (forall t :: 0 <= t < |trace| ==> Valid(trace[t].m, trace[t].levels))
    && forall t :: 0 < t < |trace| ==> Follows(trace[t - 1], trace[t])
  }

  ghost predicate Follows(a: Moment, b: Moment) {
    Grown(a.m, a.levels, b.m, b.levels) && OneStore(a.m, b.m)
  }

  /** Between two moments there is at most one store: of the height, of a link, or of a node that no link
      leads to yet. */
  ghost predicate OneStore(m: Memory, m': Memory) {
    || m' == m.(maxHeight := m'.maxHeight)
    || (exists key :: m' == NewNode(m, key))
    || exists n: Node, i: nat, to: Node :: StoresLink(m, n, i, to, m')
  }

  ghost predicate StoresLink(m: Memory, n: Node, i: nat, to: Node, m': Memory) {
    n < |m.next| && i < |m.next[n]| && m' == SetNext(m, n, i, to)
  }

  lemma StoreFollows(m: Memory, levels: Levels, n: Node, i: nat, to: Node, levels': Levels)
    requires n < |m.next| && i < |m.next[n]| && Grown(m, levels, SetNext(m, n, i, to), levels')
    ensures Follows(Moment(m, levels), Moment(SetNext(m, n, i, to), levels'))
  {
    assert StoresLink(m, n, i, to, SetNext(m, n, i, to));
  }

  /** The histories of insertions, one after the other, make one history. */
  lemma HistoriesJoin(a: seq<Moment>, b: seq<Moment>)
    requires IsHistory(a) && IsHistory(b) && a[|a| - 1] == b[0]
    ensures IsHistory(a + b[1..])
  {
    hide Valid, Follows;
    var joined := a + b[1..];
    forall t | 0 <= t < |joined|
      ensures Valid(joined[t].m, joined[t].levels) && (0 < t ==> Follows(joined[t - 1], joined[t]))
    {
      if |a| <= t {
        assert joined[t] == b[t - |a| + 1] && joined[t - 1] == b[t - |a|];
      }
    }
  }

  ghost predicate OldOrNew(t: Moment, before: Moment, key: Key) {
    KeysAt(t) == KeysAt(before) || KeysAt(t) == KeysAt(before) + {key}
  }

  ghost predicate Recorded(trace: seq<Moment>, before: Moment, now: Moment, key: Key) {
    && IsHistory(trace) && trace[0] == before && trace[|trace| - 1] == now
    && forall t :: 0 <= t < |trace| ==> OldOrNew(trace[t], before, key)
  }

  lemma RecordOne(trace: seq<Moment>, before: Moment, last: Moment, now: Moment, key: Key)
    requires Recorded(trace, before, last, key) && Valid(now.m, now.levels) && Follows(last, now)
    requires OldOrNew(now, before, key)
    ensures Recorded(trace + [now], before, now, key)
  {
    hide Valid, Follows, OldOrNew;
  }

  /** As long as node x is in no level, the list has its old keys; from then on, its new one too. */
  lemma KeysOfGoing(m: Memory, levels: Levels, key: Key, height: nat, x: Node, prev: seq<Node>, i: nat, before: Moment)
    requires Going(m, levels, key, height, x, prev, i, before)
    ensures KeysAt(Moment(m, levels)) == KeysAt(before) + (if i == 0 then {} else {key})
  {
    NodesAreInRange(before.m, before.levels);
    assert forall n :: n in before.levels[0] ==> KeyOf(m, n) == KeyOf(before.m, n);
    if i > 0 {
      assert PlusOne(levels[0], before.levels[0], x);
      assert KeyOf(m, x) == key;
      forall k | k in KeysAt(before) + {key}
        ensures k in KeysAt(Moment(m, levels))
      {
        if k == key {
          assert x in levels[0];
        } else {
          var n :| n in before.levels[0] && KeyOf(before.m, n) == k;
          assert n in levels[0];
        }
      }
    }
  }

  lemma RecordStarts(before: Moment, raised: Moment, now: Moment, key: Key, height: nat, x: Node, prev: seq<Node>)
    returns (trace: seq<Moment>)
    requires Valid(before.m, before.levels) && Valid(raised.m, raised.levels)
    requires raised == Moment(before.m.(maxHeight := raised.m.maxHeight), before.levels) && now.levels == before.levels
    requires Going(now.m, now.levels, key, height, x, prev, 0, before)
    requires Follows(before, raised) && Follows(raised, now)
    ensures Recorded(trace, before, now, key)
  {
    KeysOfGoing(now.m, now.levels, key, height, x, prev, 0, before);
    assert Recorded([before], before, before, key);
    assert OldOrNew(raised, before, key);
    RecordOne([before], before, before, raised, key);
    RecordOne([before] + [raised], before, raised, now, key);
    trace := [before] + [raised] + [now];
  }

  lemma RecordTwo(trace0: seq<Moment>, before: Moment, last: Moment, own: Moment, now: Moment, key: Key, height: nat,
      x: Node, prev: seq<Node>, i: nat) returns (trace: seq<Moment>)
    requires Recorded(trace0, before, last, key)
    requires Valid(own.m, own.levels) && own.levels == last.levels && own.m.keys == last.m.keys
    requires Going(now.m, now.levels, key, height, x, prev, i + 1, before)
    requires Follows(last, own) && Follows(own, now)
    ensures Recorded(trace, before, now, key)
  {
    KeysOfGoing(now.m, now.levels, key, height, x, prev, i + 1, before);
    assert OldOrNew(last, before, key);
    assert KeysAt(own) == KeysAt(last);
    RecordOne(trace0, before, last, own, key);
    RecordOne(trace0 + [own], before, own, now, key);
    trace := trace0 + [own] + [now];
  }

  lemma EndsGoing(m: Memory, levels: Levels, key: Key, height: nat, x: Node, prev: seq<Node>, before: Moment, h: nat)
    requires Going(m, levels, key, height, x, prev, height, before)
    requires h == m.maxHeight == if height > before.m.maxHeight then height else before.m.maxHeight
    ensures Valid(m, levels) && KeySet(m, levels) == KeySet(before.m, before.levels) + {key}
    ensures AtHeight(before, Moment(m, levels), key, height)
  {
    KeysOfGoing(m, levels, key, height, x, prev, height, before);
  }

  lemma RecordEnds(trace: seq<Moment>, before: Moment, now: Moment, key: Key)
    requires Recorded(trace, before, now, key)
    ensures IsHistory(trace) && trace[0] == before && trace[|trace| - 1] == now
    ensures forall t :: 0 <= t < |trace| ==> OldOrNew(trace[t], before, key)
  {
  }

  ghost predicate PlusOne(l': seq<Node>, l: seq<Node>, x: Node) {
    forall n :: n in l' <==> n in l || n == x
  }

  /** In the middle of an insertion: node x is in the levels below i, and in no other. */
  ghost predicate Going(m: Memory, levels: Levels, key: Key, height: nat, x: Node, prev: seq<Node>, i: nat,
                        before: Moment) {
    && Valid(m, levels) && Valid(before.m, before.levels) && i <= height && 1 <= height <= m.maxHeight
    && x == |before.m.keys| && m.keys == before.m.keys + [key] && |prev| == MAX_HEIGHT
    && (forall k :: i <= k < MAX_HEIGHT ==> levels[k] == before.levels[k])
    && (forall k :: 0 <= k < i ==> PlusOne(levels[k], before.levels[k], x))
    && (forall k :: i <= k < height ==> ComesBefore(m, levels, key, k, prev[k]))
    && forall o :: o in before.levels[0] ==> KeyOf(before.m, o) != key
  }

  lemma StartsGoing(m: Memory, levels: Levels, key: Key, height: nat, h: nat, prev: seq<Node>)
    requires Valid(m, levels) && 1 <= height <= MAX_HEIGHT
    requires h == (if height > m.maxHeight then height else m.maxHeight)
    requires |prev| == MAX_HEIGHT && forall i :: 0 <= i < m.maxHeight ==> ComesBefore(m, levels, key, i, prev[i])
    requires forall i :: m.maxHeight <= i < height ==> prev[i] == HEAD
    requires forall o :: o in levels[0] ==> KeyOf(m, o) != key
    ensures var m1 := m.(maxHeight := h);
            && Valid(m1, levels)
            && Going(NewNode(m1, key), levels, key, height, |m.keys|, prev, 0, Moment(m, levels))
            && Follows(Moment(m, levels), Moment(m1, levels))
            && Follows(Moment(m1, levels), Moment(NewNode(m1, key), levels))
  {
    var m1 := m.(maxHeight := h);
    HeightIsUnseen(m, levels, h);
    NewNodeIsUnseen(m1, levels, key);
    var m2 := NewNode(m1, key);
    forall k | 0 <= k < height
      ensures ComesBefore(m2, levels, key, k, prev[k])
    {
      assert LevelOk(m, levels[k], k);
      if k < m.maxHeight {
        assert ComesBefore(m, levels, key, k, prev[k]);
      } else {
        assert LinkOk(m, levels[k], k, 0);
      }
    }
  }

  /** The first store for level i, into the new node itself. */
  lemma OwnStoreGoesOn(m: Memory, levels: Levels, key: Key, height: nat, x: Node, prev: seq<Node>, i: nat,
                       before: Moment)
    requires Going(m, levels, key, height, x, prev, i, before) && i < height
    ensures i < |prev| && x < |m.next| && i < |m.next[x]| && prev[i] < |m.next| && i < |m.next[prev[i]]|
    ensures var m1 := SetNext(m, x, i, m.next[prev[i]][i]);
            && Valid(m1, levels) && Grown(m, levels, m1, levels)
            && Going(m1, levels, key, height, x, prev, i, before) && m1.next[x][i] == m1.next[prev[i]][i]
  {
    var p := prev[i];
    assert ComesBefore(m, levels, key, i, p) && LevelOk(m, levels[i], i);
    NewestIsNowhere(m, before, i);
    var m1 := SetNext(m, x, i, m.next[p][i]);
    OwnStoreIsUnseen(m, levels, x, i, m.next[p][i]);
    forall k | i <= k < height
      ensures ComesBefore(m1, levels, key, k, prev[k])
    {
      NewestIsNowhere(m, before, k);
      assert ComesBefore(m, levels, key, k, prev[k]);
    }
  }

  /** The second, which publishes it. */
  lemma PublishGoesOn(m: Memory, levels: Levels, key: Key, height: nat, x: Node, prev: seq<Node>, i: nat,
                      before: Moment)
    returns (levels': Levels)
    requires Going(m, levels, key, height, x, prev, i, before) && i < height
    requires x < |m.next| && i < |m.next[x]| && prev[i] < |m.next| && i < |m.next[prev[i]]|
    requires m.next[x][i] == m.next[prev[i]][i]
    ensures var m2 := SetNext(m, prev[i], i, x);
            && Grown(m, levels, m2, levels')
            && Going(m2, levels', key, height, x, prev, i + 1, before)
  {
    var p, l := prev[i], levels[i];
    assert ComesBefore(m, levels, key, i, p) && LevelOk(m, l, i);
    NewestIsNowhere(m, before, i);
    var j := LinkLeadsOn(m, l, i, p);
    levels' := levels[i := InsertedAt(l, j, x)];
    if j < |l| {
      KeysApart(m, levels, before, key, i, j);
    }
    PublishKeepsValid(m, levels, i, j, x);
    var m2 := SetNext(m, p, i, x);
    hide Valid, LevelOk, Grown, PlusOne;
    forall k | i + 1 <= k < height
      ensures ComesBefore(m2, levels', key, k, prev[k])
    {
      assert ComesBefore(m, levels, key, k, prev[k]);
      OtherLevelStays(m, levels, key, k, prev[k], i, p, x, levels'[i]);
    }
    assert PlusOne(levels'[i], before.levels[i], x) by {
      InsertedIsOneMore(l, j, x);
    }
    hide ComesBefore;
  }

  lemma InsertedIsOneMore(l: seq<Node>, j: nat, x: Node)
    requires j <= |l| && x !in l
    ensures PlusOne(InsertedAt(l, j, x), l, x)
  {
  }

  /** A store on one level leaves the others as they are. */
  lemma OtherLevelStays(m: Memory, levels: Levels, key: Key, k: nat, q: Node, i: nat, p: Node, x: Node, l: seq<Node>)
    requires Valid(m, levels) && i < k < MAX_HEIGHT && p < |m.next| && i < |m.next[p]|
    requires ComesBefore(m, levels, key, k, q)
    requires Valid(SetNext(m, p, i, x), levels[i := l])
    ensures ComesBefore(SetNext(m, p, i, x), levels[i := l], key, k, q)
  {
    hide LevelOk;
  }

  lemma NewestIsNowhere(m: Memory, before: Moment, i: nat)
    requires Valid(before.m, before.levels) && i < MAX_HEIGHT
    ensures |before.m.keys| !in before.levels[i]
  {
    assert LevelOk(before.m, before.levels[i], i);
  }

  lemma KeysApart(m: Memory, levels: Levels, before: Moment, key: Key, i: nat, j: nat)
    requires Valid(m, levels) && Valid(before.m, before.levels) && before.m.keys <= m.keys && i < MAX_HEIGHT
    requires levels[i] == before.levels[i] && j < |levels[i]| && key <= KeyOf(m, levels[i][j])
    requires forall o :: o in before.levels[0] ==> KeyOf(before.m, o) != key
    ensures key < KeyOf(m, levels[i][j])
  {
    InLowest(before.m, before.levels, i, levels[i][j]);
    assert LevelOk(before.m, before.levels[0], 0);
  }

  lemma {:induction false} InLowest(m: Memory, levels: Levels, i: nat, n: Node)
    requires Valid(m, levels) && i < MAX_HEIGHT && n in levels[i]
    ensures n in levels[0]
  {
    if i > 0 {
      assert PartOf(levels[i], levels[i - 1]);
      InLowest(m, levels, i - 1, n);
    }
  }

  lemma NodesAreInRange(m: Memory, levels: Levels)
    requires Valid(m, levels)
    ensures forall o :: o in levels[0] ==> 0 < o < |m.keys|
  {
    assert LevelOk(m, levels[0], 0);
  }

  lemma LinkAt(m: Memory, levels: Levels, x: Node, level: nat, j: nat)
    requires Valid(m, levels) && level < MAX_HEIGHT && j <= |levels[level]| && Before(levels[level], j) == x
    ensures x < |m.keys| && m.next[x][level] < |m.keys|
    ensures if j < |levels[level]| then m.next[x][level] == levels[level][j] != NULL
          && m.next[x][level] in levels[level]
            else m.next[x][level] == NULL
  {
    assert LevelOk(m, levels[level], level) && LinkOk(m, levels[level], level, j);
  }

  /** One turn at place j of a level. */
  lemma TurnOf(m: Memory, levels: Levels, target: Key, x: Node, level: nat, j: nat)
    requires Valid(m, levels) && OnItsWay(m, levels, target, At(x, level))
    requires j <= |levels[level]| && Before(levels[level], j) == x
    ensures x < |m.keys| && m.next[x][level] < |m.keys|
    ensures KeyIsAfterNode(m, target, m.next[x][level]) ==>
              j < |levels[level]| && Before(levels[level], j + 1) == m.next[x][level]
    ensures !KeyIsAfterNode(m, target, m.next[x][level]) ==> ComesBefore(m, levels, target, level, x)
  {
    assert LevelOk(m, levels[level], level) && LinkOk(m, levels[level], level, j);
  }

  /** Node p is where level i passes from before `target` to after it. */
  ghost predicate ComesBefore(m: Memory, levels: Levels, target: Key, i: nat, p: Node)
    requires Valid(m, levels)
  {
    && i < MAX_HEIGHT && p < |m.keys| && (p == HEAD || (p in levels[i] && KeyOf(m, p) < target))
    && (m.next[p][i] != NULL ==> target <= KeyOf(m, m.next[p][i]))
  }

  // ---------------------------------------------------------------------------------------------
  // Readers beside the writer

  /** A search whose turns are taken at moments of a history, later ones at later moments; it may
      have started at any height, since the one it read may be out of date. */
  ghost predicate IsSearch(trace: seq<Moment>, target: Key, turns: seq<Search>, at: seq<nat>) {
    && |turns| == |at| + 1 && turns[0].At? && turns[0].x == HEAD && turns[0].level < MAX_HEIGHT
    && (forall k :: 0 <= k < |at| ==> at[k] < |trace| && turns[k].At?)
    && (forall k :: 0 < k < |at| ==> at[k - 1] <= at[k])
    && forall k :: 0 <= k < |at| ==> turns[k + 1] == Advance(trace[at[k]].m, target, turns[k])
  }

  lemma {:induction false} SearchGoesOnAlong(trace: seq<Moment>, target: Key, s: Search, i: nat, j: nat)
    requires IsHistory(trace) && i <= j < |trace| && OnItsWay(trace[i].m, trace[i].levels, target, s)
    ensures OnItsWay(trace[j].m, trace[j].levels, target, s)
    decreases j
  {
    if i < j {
      SearchGoesOnAlong(trace, target, s, i, j - 1);
      assert Follows(trace[j - 1], trace[j]);
      SearchGoesOn(trace[j - 1].m, trace[j - 1].levels, trace[j].m, trace[j].levels, target, s);
    }
  }

  lemma {:induction false} TurnsStayOnTheirWay(trace: seq<Moment>, target: Key, turns: seq<Search>, at: seq<nat>,
                                               k: nat)
    requires IsHistory(trace) && IsSearch(trace, target, turns, at) && k < |at|
    ensures OnItsWay(trace[at[k]].m, trace[at[k]].levels, target, turns[k])
  {
    hide Advance, Valid, Follows;
    if k > 0 {
      var i, j := at[k - 1], at[k];
      TurnsStayOnTheirWay(trace, target, turns, at, k - 1);
      AdvanceIsRight(trace[i].m, trace[i].levels, target, turns[k - 1]);
      SearchGoesOnAlong(trace, target, turns[k], i, j);
    }
  }

  /** However a search is interleaved with the stores of insertions: what it finds is the first node
      from the target on, in the list as it is at the moment of its last turn. */
  lemma SearchIsRightAtItsLastTurn(trace: seq<Moment>, target: Key, turns: seq<Search>, at: seq<nat>)
    requires IsHistory(trace) && IsSearch(trace, target, turns, at) && turns[|at|].Done?
    ensures var t := at[|at| - 1];
            t < |trace| && IsFirstFrom(trace[t].m, trace[t].levels, target, turns[|at|].result)
  {
    var k := |at| - 1;
    TurnsStayOnTheirWay(trace, target, turns, at, k);
    AdvanceIsRight(trace[at[k]].m, trace[at[k]].levels, target, turns[k]);
  }
}
