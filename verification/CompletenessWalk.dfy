/**
 * The importer's walk without a visited set: what it counts, and exactly when it ends.
 *
 * `Stops` follows the walk turn by turn. On a state with a reference cycle it may never stop; `StopsIff`
 * and `AcyclicIff` say exactly when it does.
 */
module CompletenessWalk {
  import opened Prelude
  import opened SHAMap
  import opened InnerNodes
  import opened Walks

  // ---------------------------------------------------------------------------------------------
  // The walk, turn by turn

  /** The children in slot order, without the empty slots. */
  function ChildList(s: seq<Hash256>): seq<Hash256> {
    if s == [] then []
    else
      var before, c := ChildList(s[..|s| - 1]), s[|s| - 1];
      if c == ZERO_HASH then before else before + [c]
  }

  /** One turn: the last hash leaves the stack, and its children take its place. */
  ghost function Turn(m: NodeMap, stack: seq<Hash256>): Result<seq<Hash256>>
    requires stack != []
  {
    var rest, h := stack[..|stack| - 1], stack[|stack| - 1];
    if h !in m then Failure
    else if !IsInner(m[h].nodeType) then Success(rest)
    else
      var s :- Children(m[h]);
      Success(rest + ChildList(s))
  }

  /** The walk ends within `n` turns, with an empty stack or with a node that is missing or unparsable. */
  ghost predicate Stops(m: NodeMap, stack: seq<Hash256>, n: nat)
    decreases n
  {
    stack == [] || (n > 0 && (Turn(m, stack).Success? ==> Stops(m, Turn(m, stack).value, n - 1)))
  }

  ghost predicate WalkStops(m: NodeMap, root: Hash256) {
    exists n: nat :: Stops(m, [root], n)
  }

  // ---------------------------------------------------------------------------------------------
  // Finite complete trees

  /** Following references from `h` comes to an end and finds everything. */
  ghost predicate Full(m: NodeMap, h: Hash256) {
    exists t :: Unfolds(m, h, t) && Complete(t)
  }

  ghost function FullTree(m: NodeMap, h: Hash256): (t: Tree)
    requires Full(m, h)
    ensures Unfolds(m, h, t) && Complete(t)
  {
    var t :| Unfolds(m, h, t) && Complete(t);
    t
  }

  ghost predicate AllFull(m: NodeMap, hs: seq<Hash256>) {
    forall i :: 0 <= i < |hs| ==> Full(m, hs[i])
  }

  /** How many positions the trees have together. */
  ghost function Weight(m: NodeMap, hs: seq<Hash256>): nat
    requires AllFull(m, hs)
  {
    if hs == [] then 0 else Weight(m, hs[..|hs| - 1]) + Size(FullTree(m, hs[|hs| - 1]))
  }

  lemma {:induction false} WeightAppend(m: NodeMap, a: seq<Hash256>, b: seq<Hash256>)
    ensures AllFull(m, a + b) <==> AllFull(m, a) && AllFull(m, b)
    ensures AllFull(m, a + b) ==> Weight(m, a + b) == Weight(m, a) + Weight(m, b)
  {
    hide Full;
    if b == [] {
      assert a + b == a;
    } else {
      var front := b[..|b| - 1];
      WeightAppend(m, a, front);
      AllFullSnoc(m, front, b[|b| - 1]);
      AllFullSnoc(m, a + front, b[|b| - 1]);
      assert b == front + [b[|b| - 1]] && a + b == (a + front) + [b[|b| - 1]];
    }
  }

  lemma AllFullSnoc(m: NodeMap, hs: seq<Hash256>, h: Hash256)
    ensures AllFull(m, hs + [h]) <==> AllFull(m, hs) && Full(m, h)
    ensures AllFull(m, hs + [h]) ==> Weight(m, hs + [h]) == Weight(m, hs) + Size(FullTree(m, h))
  {
    hide Full;
    assert (hs + [h])[..|hs|] == hs;
    if AllFull(m, hs + [h]) {
      assert (hs + [h])[|hs|] == h;
      forall i | 0 <= i < |hs| ensures Full(m, hs[i]) {
        assert (hs + [h])[i] == hs[i];
      }
    }
  }

  lemma {:induction false} ChildListHas(s: seq<Hash256>, c: Hash256)
    ensures c in ChildList(s) <==> c in s && c != ZERO_HASH
  {
    if s != [] {
      ChildListHas(s[..|s| - 1], c);
      assert s == s[..|s| - 1] + [s[|s| - 1]];
    }
  }

  lemma KidParts(m: NodeMap, h: Hash256, t: Tree)
    requires Unfolds(m, h, t) && Complete(t) && t.Branch?
    ensures Children(t.node).Success? && |t.kids| == 16
    ensures forall i :: 0 <= i < 16 ==> SlotUnfolds(m, Children(t.node).value[i], t.kids[i]) && Complete(t.kids[i])
  {
  }

  lemma EmptySlot(t: Tree)
    requires t == Nil
    ensures Size(t) == 0
  {
  }

  /** The first `k` child trees of a full node weigh what their hashes do. */
  lemma {:induction false} KidsWeigh(m: NodeMap, h: Hash256, t: Tree, k: nat)
    requires Unfolds(m, h, t) && Complete(t) && t.Branch? && k <= 16
    ensures
      Children(t.node).Success? && |t.kids| == 16 &&
      var cs := ChildList(Children(t.node).value[..k]);
      AllFull(m, cs) && Weight(m, cs) == Total(t.kids[..k])
  {
    hide Full, Complete, Size, Unfolds, Children;
    KidParts(m, h, t);
    var s := Children(t.node).value;
    if k > 0 {
      KidsWeigh(m, h, t, k - 1);
      assert s[..k][..k - 1] == s[..k - 1] && s[..k][k - 1] == s[k - 1];
      assert t.kids[..k] == t.kids[..k - 1] + [t.kids[k - 1]];
      TotalSnoc(t.kids[..k - 1], t.kids[k - 1]);
      if s[k - 1] == ZERO_HASH {
        EmptySlot(t.kids[k - 1]);
      } else {
        FullTreeIs(m, s[k - 1], t.kids[k - 1]);
        AllFullSnoc(m, ChildList(s[..k - 1]), s[k - 1]);
      }
    } else {
      assert s[..0] == [] && t.kids[..0] == [];
    }
  }

  lemma FullTreeIs(m: NodeMap, h: Hash256, t: Tree)
    requires Unfolds(m, h, t) && Complete(t)
    ensures Full(m, h) && FullTree(m, h) == t
  {
    UnfoldUnique(m, h, FullTree(m, h), t);
  }

  /** A leaf is a full tree of one position. */
  lemma LeafFull(m: NodeMap, h: Hash256)
    requires Keyed(m) && h in m && !IsInner(m[h].nodeType)
    ensures Full(m, h) && Size(FullTree(m, h)) == 1
  {
    FullTreeIs(m, h, Leaf(m[h]));
  }

  /** A full node that is not a leaf has full children and is one position more than they are. */
  lemma InnerWeighs(m: NodeMap, h: Hash256)
    requires h in m && IsInner(m[h].nodeType) && Full(m, h)
    ensures
      Children(m[h]).Success? &&
      var cs := ChildList(Children(m[h]).value);
      AllFull(m, cs) && Size(FullTree(m, h)) == Weight(m, cs) + 1
  {
    hide AllFull, Weight, Full, ChildList;
    var t := FullTree(m, h);
    assert t.Branch? && t.node == m[h];
    KidsWeigh(m, h, t, 16);
    var s := Children(m[h]).value;
    assert s[..16] == s && t.kids[..16] == t.kids;
  }

  lemma InnerFull(m: NodeMap, h: Hash256)
    requires Keyed(m) && h in m && IsInner(m[h].nodeType) && Children(m[h]).Success?
    requires AllFull(m, ChildList(Children(m[h]).value))
    ensures Full(m, h)
  {
    hide Full;
    var s := Children(m[h]).value;
    forall i | 0 <= i < 16 && s[i] != ZERO_HASH ensures Full(m, s[i]) {
      ChildListHas(s, s[i]);
    }
    var kids := seq(16, i requires 0 <= i < 16 => if s[i] == ZERO_HASH then Nil else FullTree(m, s[i]));
    FullTreeIs(m, h, Branch(m[h], kids));
  }

  /** A turn that succeeds keeps whether everything on the stack is full, and takes off one position. */
  lemma TurnFull(m: NodeMap, stack: seq<Hash256>)
    requires Keyed(m) && stack != [] && Turn(m, stack).Success?
    ensures AllFull(m, stack) <==> AllFull(m, Turn(m, stack).value)
    ensures AllFull(m, stack) ==> Weight(m, stack) == Weight(m, Turn(m, stack).value) + 1
  {
    hide AllFull, Weight, Full, Keyed, ChildList;
    var rest, h := stack[..|stack| - 1], stack[|stack| - 1];
    assert stack == rest + [h];
    AllFullSnoc(m, rest, h);
    if IsInner(m[h].nodeType) {
      var cs := ChildList(Children(m[h]).value);
      WeightAppend(m, rest, cs);
      if AllFull(m, cs) {
        InnerFull(m, h);
      }
      if Full(m, h) {
        InnerWeighs(m, h);
      }
    } else {
      LeafFull(m, h);
    }
  }

  /** A turn fails on a node that is missing or does not parse, which is not full. */
  lemma TurnFails(m: NodeMap, stack: seq<Hash256>)
    requires stack != [] && Turn(m, stack).Failure?
    ensures !Full(m, stack[|stack| - 1]) && !Usable(m, stack[|stack| - 1])
  {
  }

  lemma NothingFull(m: NodeMap)
    ensures AllFull(m, []) && Weight(m, []) == 0
  {
  }

  // ---------------------------------------------------------------------------------------------
  // The methods

  method PushChildren(children: Slots, stack: seq<Hash256>) returns (next: seq<Hash256>)
    ensures next == stack + ChildList(children)
  {
    next := stack;
    for i := 0 to 16
      invariant next == stack + ChildList(children[..i])
    {
      assert children[..i + 1][..i] == children[..i];
      if children[i] != ZERO_HASH {
        next := next + [children[i]];
      }
    }
    assert children[..16] == children;
  }

  /** Follows every reference from `root`, counting positions: it keeps no visited set. */
  method WalkComplete(root: Hash256, state: NodeMap) returns (r: Result<nat>)
    requires Keyed(state) && WalkStops(state, root)
    ensures r == if Full(state, root) then Success(Size(FullTree(state, root))) else Failure
  {
    hide AllFull, Weight, Full, Keyed, ChildList, WalkStops;
    var stack := [root];
    ghost var turns: nat := StopsAfter(state, root);
    var reached: nat := 0;
    NothingFull(state);
    assert [root] == [] + [root];
    AllFullSnoc(state, [], root);
    while stack != []
      invariant Stops(state, stack, turns)
      invariant Full(state, root) <==> AllFull(state, stack)
      invariant AllFull(state, stack) ==> reached + Weight(state, stack) == Size(FullTree(state, root))
      decreases turns
    {
      var h := stack[|stack| - 1];
      assert stack == stack[..|stack| - 1] + [h];
      AllFullSnoc(state, stack[..|stack| - 1], h);
      if Turn(state, stack).Failure? {
        TurnFails(state, stack);
      } else {
        TurnFull(state, stack);
      }
      stack, turns := stack[..|stack| - 1], turns - 1;
      if h !in state {
        return Failure;
      }
      var node := state[h];
      reached := reached + 1;
      if IsInner(node.nodeType) {
        var inner := FromNode(node);
        if inner.Failure? {
          return Failure;
        }
        stack := PushChildren(inner.value, stack);
      }
    }
    return Success(reached);
  }

  ghost function StopsAfter(m: NodeMap, root: Hash256): (n: nat)
    requires WalkStops(m, root)
    ensures Stops(m, [root], n)
  {
    var n: nat :| Stops(m, [root], n);
    n
  }

  // ---------------------------------------------------------------------------------------------
  // Exactly when the walk stops

  /** Full trees are walked in as many turns as they have positions, whatever lies below them on the stack. */
  lemma {:induction false} PassOver(m: NodeMap, base: seq<Hash256>, above: seq<Hash256>, n: nat)
    requires Keyed(m) && AllFull(m, above) && Stops(m, base, n)
    ensures Stops(m, base + above, n + Weight(m, above))
    decreases Weight(m, above)
  {
    hide AllFull, Weight, Full, Keyed, ChildList;
    if above == [] {
      assert base + above == base;
      NothingFull(m);
    } else {
      TurnOfFull(m, above);
      TurnFull(m, above);
      TurnAppend(m, base, above);
      PassOver(m, base, Turn(m, above).value, n);
    }
  }

  lemma TurnOfFull(m: NodeMap, stack: seq<Hash256>)
    requires stack != [] && AllFull(m, stack)
    ensures Turn(m, stack).Success?
  {
    hide Full;
    assert Full(m, stack[|stack| - 1]);
    if Turn(m, stack).Failure? {
      TurnFails(m, stack);
    }
  }

  lemma TurnAppend(m: NodeMap, base: seq<Hash256>, above: seq<Hash256>)
    requires above != [] && Turn(m, above).Success?
    ensures Turn(m, base + above) == Success(base + Turn(m, above).value)
  {
    hide ChildList;
    assert (base + above)[..|base + above| - 1] == base + above[..|above| - 1];
    var h := above[|above| - 1];
    if IsInner(m[h].nodeType) {
      var cs := ChildList(Children(m[h]).value);
      assert (base + above[..|above| - 1]) + cs == base + (above[..|above| - 1] + cs);
    }
  }

  /**
   * Following `p`, the walk meets a node that is missing or does not parse: at every step everything it
   * takes before that child, which are the children behind it, is a finite complete tree.
   */
  ghost predicate MeetsBad(m: NodeMap, h: Hash256, p: seq<nat>)
    decreases |p|
  {
    if p == [] then !Usable(m, h)
    else
      && Usable(m, h) && IsInner(m[h].nodeType)
      && var cs := ChildList(Children(m[h]).value);
         p[0] < |cs| && AllFull(m, cs[p[0] + 1..]) && MeetsBad(m, cs[p[0]], p[1..])
  }

  /** A walk that stops without finding everything full has met a bad node. */
  lemma {:induction false} StopMeetsBad(m: NodeMap, stack: seq<Hash256>, n: nat) returns (j: nat, p: seq<nat>)
    requires Keyed(m) && Stops(m, stack, n) && !AllFull(m, stack)
    ensures j < |stack| && AllFull(m, stack[j + 1..]) && MeetsBad(m, stack[j], p)
    decreases n
  {
    hide Full, Weight, Keyed, ChildList;
    var rest, h := stack[..|stack| - 1], stack[|stack| - 1];
    if Turn(m, stack).Failure? {
      TurnFails(m, stack);
      j, p := |stack| - 1, [];
    } else {
      var next := Turn(m, stack).value;
      TurnFull(m, stack);
      j, p := StopMeetsBad(m, next, n - 1);
      if j >= |rest| {
        InnerTurn(m, stack);
        var cs := ChildList(Children(m[h]).value);
        var i := j - |rest|;
        assert next[j] == cs[i] && next[j + 1..] == cs[i + 1..];
        assert ([i] + p)[1..] == p;
        j, p := |rest|, [i] + p;
      } else {
        BehindFull(m, stack, j);
      }
    }
  }

  /** A turn that leaves more on the stack than the hashes below the top has looked at an inner node. */
  lemma InnerTurn(m: NodeMap, stack: seq<Hash256>)
    requires stack != [] && Turn(m, stack).Success? && |Turn(m, stack).value| >= |stack|
    ensures
      var h := stack[|stack| - 1];
      && Usable(m, h) && IsInner(m[h].nodeType)
      && Turn(m, stack).value == stack[..|stack| - 1] + ChildList(Children(m[h]).value)
  {
    hide ChildList;
  }

  /** If everything behind position `j` is full after a turn, so was everything behind it before. */
  lemma BehindFull(m: NodeMap, stack: seq<Hash256>, j: nat)
    requires Keyed(m) && stack != [] && j < |stack| - 1 && Turn(m, stack).Success?
    requires j < |Turn(m, stack).value| && AllFull(m, Turn(m, stack).value[j + 1..])
    ensures AllFull(m, stack[j + 1..]) && Turn(m, stack).value[j] == stack[j]
  {
    hide AllFull, Weight, Full, Keyed, ChildList;
    var tail := stack[j + 1..];
    var base := stack[..j + 1];
    assert stack == base + tail && tail[|tail| - 1] == stack[|stack| - 1];
    TurnOfTail(m, base, tail);
    TurnAppend(m, base, tail);
    assert (base + Turn(m, tail).value)[j + 1..] == Turn(m, tail).value;
    TurnFull(m, tail);
  }

  lemma TurnOfTail(m: NodeMap, base: seq<Hash256>, tail: seq<Hash256>)
    requires tail != [] && Turn(m, base + tail).Success?
    ensures Turn(m, tail).Success?
  {
    hide ChildList;
    assert (base + tail)[|base + tail| - 1] == tail[|tail| - 1];
  }

  /** A walk that meets a bad node stops. */
  lemma {:induction false} MeetsBadStops(m: NodeMap, base: seq<Hash256>, h: Hash256, p: seq<nat>) returns (n: nat)
    requires Keyed(m) && MeetsBad(m, h, p)
    ensures Stops(m, base + [h], n)
    decreases |p|
  {
    hide AllFull, Weight, Full, Keyed, ChildList;
    var stack := base + [h];
    assert stack[..|stack| - 1] == base;
    if p == [] {
      n := 1;
    } else {
      var cs := ChildList(Children(m[h]).value);
      var i := p[0];
      var k := MeetsBadStops(m, base + cs[..i], cs[i], p[1..]);
      PassOver(m, base + cs[..i] + [cs[i]], cs[i + 1..], k);
      n := k + Weight(m, cs[i + 1..]) + 1;
      assert Turn(m, stack) == Success(base + cs);
      assert base + cs[..i] + [cs[i]] + cs[i + 1..] == base + cs;
    }
  }

  /**
   * The walk stops if and only if the tree below the root is finite and complete, or the walk meets a
   * missing or unparsable node before it enters anything infinite.
   */
  lemma StopsIff(m: NodeMap, root: Hash256)
    requires Keyed(m)
    ensures WalkStops(m, root) <==> Full(m, root) || exists p :: MeetsBad(m, root, p)
  {
    hide Weight, Full, Keyed, MeetsBad;
    assert [] + [root] == [root];
    if WalkStops(m, root) && !Full(m, root) {
      assert !Full(m, [root][0]);
      var j, p := StopMeetsBad(m, [root], StopsAfter(m, root));
    }
    if Full(m, root) {
      assert Stops(m, [], 0);
      PassOver(m, [], [root], 0);
      assert WalkStops(m, root);
    }
    if p :| MeetsBad(m, root, p) {
      var n := MeetsBadStops(m, [], root, p);
      assert WalkStops(m, root);
    }
  }

  // ---------------------------------------------------------------------------------------------
  // Cycles

  /** Following references from the root comes to an end. */
  ghost predicate Finite(m: NodeMap, root: Hash256) {
    exists t :: Unfolds(m, root, t)
  }

  /** `h` is reached again from one of its own children. */
  ghost predicate OnCycle(m: NodeMap, h: Hash256) {
    exists c :: Linked(m, h, c) && Reach(m, c, h)
  }

  lemma ReachTrans(m: NodeMap, a: Hash256, b: Hash256, c: Hash256)
    requires Reach(m, a, b) && Reach(m, b, c)
    ensures Reach(m, a, c)
  {
    var p :| IsPath(m, a, p, b);
    var q :| IsPath(m, b, q, c);
    var r := p + q[1..];
    forall i | 0 < i < |r| ensures Linked(m, r[i - 1], r[i]) {
      if i < |p| {
        assert Linked(m, p[i - 1], p[i]);
      } else {
        assert Linked(m, q[i - |p|], q[i - |p| + 1]);
      }
    }
    assert IsPath(m, a, r, c);
  }

  lemma LinkReaches(m: NodeMap, h: Hash256, c: Hash256)
    requires Linked(m, h, c)
    ensures Reach(m, h, c)
  {
    ReachRoot(m, h);
    ReachStep(m, h, h, c);
  }

  /** Everything held that `h` reaches is among `left`, and none of it is on a cycle. */
  ghost predicate Acyclic(m: NodeMap, left: set<Hash256>, h: Hash256) {
    forall x :: Reach(m, h, x) && x in m ==> x in left && !OnCycle(m, x)
  }

  lemma ChildAcyclic(m: NodeMap, left: set<Hash256>, h: Hash256, c: Hash256)
    requires Acyclic(m, left, h) && Linked(m, h, c)
    ensures h in left && Acyclic(m, left - {h}, c)
  {
    hide Reach;
    ReachRoot(m, h);
    LinkReaches(m, h, c);
    forall x | Reach(m, c, x) && x in m ensures x in left - {h} && !OnCycle(m, x) {
      ReachTrans(m, h, c, x);
      assert x == h ==> OnCycle(m, h);
    }
  }

  lemma {:induction false} AcyclicFinite(m: NodeMap, left: set<Hash256>, h: Hash256)
    requires Keyed(m) && Acyclic(m, left, h)
    ensures Finite(m, h)
    decreases |left|
  {
    hide Acyclic, Linked, Keyed;
    if h in m && IsInner(m[h].nodeType) && Children(m[h]).Success? {
      var s := Children(m[h]).value;
      forall i | 0 <= i < 16 && s[i] != ZERO_HASH ensures Finite(m, s[i]) {
        SlotLinked(m, h, i);
        ChildAcyclic(m, left, h, s[i]);
        Smaller(left, h);
        AcyclicFinite(m, left - {h}, s[i]);
      }
      FiniteBranch(m, h);
    } else {
      FiniteEnd(m, h);
    }
  }

  lemma SlotLinked(m: NodeMap, h: Hash256, i: nat)
    requires h in m && IsInner(m[h].nodeType) && Children(m[h]).Success?
    requires i < 16 && Children(m[h]).value[i] != ZERO_HASH
    ensures Linked(m, h, Children(m[h]).value[i])
  {
  }

  lemma Smaller(s: set<Hash256>, x: Hash256)
    requires x in s
    ensures |s - {x}| < |s|
  {
  }

  lemma FiniteEnd(m: NodeMap, h: Hash256)
    requires Keyed(m) && (h in m && IsInner(m[h].nodeType) ==> Children(m[h]).Failure?)
    ensures Finite(m, h)
  {
    var t := if h !in m then Absent(h) else if IsInner(m[h].nodeType) then Corrupt(m[h]) else Leaf(m[h]);
    assert Unfolds(m, h, t);
  }

  ghost function SomeTree(m: NodeMap, h: Hash256): (t: Tree)
    requires Finite(m, h)
    ensures Unfolds(m, h, t)
  {
    var t :| Unfolds(m, h, t);
    t
  }

  lemma FiniteBranch(m: NodeMap, h: Hash256)
    requires Keyed(m) && h in m && IsInner(m[h].nodeType) && Children(m[h]).Success?
    requires forall i :: 0 <= i < 16 && Children(m[h]).value[i] != ZERO_HASH ==> Finite(m, Children(m[h]).value[i])
    ensures Finite(m, h)
  {
    hide Finite;
    var s := Children(m[h]).value;
    var kids := seq(16, i requires 0 <= i < 16 => if s[i] == ZERO_HASH then Nil else SomeTree(m, s[i]));
    FiniteIs(m, h, Branch(m[h], kids));
  }

  lemma FiniteIs(m: NodeMap, h: Hash256, t: Tree)
    requires Unfolds(m, h, t)
    ensures Finite(m, h)
  {
  }

  /** In a finite tree no reached node is reached from its own children. */
  lemma FiniteAcyclic(m: NodeMap, root: Hash256, t: Tree, h: Hash256)
    requires Unfolds(m, root, t) && Reach(m, root, h)
    ensures !OnCycle(m, h)
  {
    hide Reach, Occ;
    ReachIsOcc(m, root, t);
    var u := SubtreeAt(m, root, t, h);
    forall c | Linked(m, h, c) ensures !Reach(m, c, h) {
      var i :| 0 <= i < 16 && Children(m[h]).value[i] == c;
      RootOnce(m, h, u, i);
      ReachIsOcc(m, c, u.kids[i]);
    }
  }

  /** Following references from the root comes to an end exactly when nothing it reaches reaches itself. */
  lemma FiniteIff(m: NodeMap, root: Hash256)
    requires Keyed(m)
    ensures Finite(m, root) <==> forall h :: Reach(m, root, h) ==> !OnCycle(m, h)
  {
    hide Reach, OnCycle, Keyed;
    if Finite(m, root) {
      forall h | Reach(m, root, h) ensures !OnCycle(m, h) {
        FiniteAcyclic(m, root, SomeTree(m, root), h);
      }
    }
    if forall h :: Reach(m, root, h) ==> !OnCycle(m, h) {
      AcyclicFinite(m, m.Keys, root);
    }
  }

  /** Where nothing is missing or unparsable, the walk stops exactly when the root reaches no cycle. */
  lemma AcyclicIff(m: NodeMap, root: Hash256)
    requires Keyed(m) && forall h :: Reach(m, root, h) ==> Usable(m, h)
    ensures WalkStops(m, root) <==> forall h :: Reach(m, root, h) ==> !OnCycle(m, h)
  {
    hide Reach, OnCycle, Keyed, WalkStops, MeetsBad, Usable;
    StopsIff(m, root);
    FiniteIff(m, root);
    if p :| MeetsBad(m, root, p) {
      ReachRoot(m, root);
      var h := BadReached(m, root, root, p);
    }
    if Finite(m, root) {
      var t := SomeTree(m, root);
      ReachIsOcc(m, root, t);
      FullTreeIs(m, root, t);
    }
    if Full(m, root) {
      FiniteIs(m, root, FullTree(m, root));
    }
  }

  lemma {:induction false} BadReached(m: NodeMap, root: Hash256, h: Hash256, p: seq<nat>) returns (bad: Hash256)
    requires Reach(m, root, h) && MeetsBad(m, h, p)
    ensures Reach(m, root, bad) && !Usable(m, bad)
    decreases |p|
  {
    hide Reach, AllFull, ChildList;
    if p == [] {
      bad := h;
    } else {
      var cs := ChildList(Children(m[h]).value);
      ChildListHas(Children(m[h]).value, cs[p[0]]);
      assert Linked(m, h, cs[p[0]]);
      ReachStep(m, root, h, cs[p[0]]);
      bad := BadReached(m, root, cs[p[0]], p[1..]);
    }
  }

  /** A finite tree, complete or not, is one on which the walk stops. */
  lemma FiniteStops(m: NodeMap, root: Hash256)
    requires Keyed(m) && Finite(m, root)
    ensures WalkStops(m, root)
  {
    hide WalkStops, Keyed, MeetsBad, Full;
    StopsIff(m, root);
    var t := SomeTree(m, root);
    if Complete(t) {
      FullTreeIs(m, root, t);
    } else {
      var p := LastBad(m, root, t);
    }
  }

  /** In a finite incomplete tree the walk meets a bad node: below the last child that is not full. */
  lemma {:induction false} LastBad(m: NodeMap, h: Hash256, t: Tree) returns (p: seq<nat>)
    requires Keyed(m) && Unfolds(m, h, t) && !Complete(t)
    ensures MeetsBad(m, h, p)
    decreases t
  {
    hide Full, Keyed, ChildList, Weight;
    if t.Branch? {
      var cs := ChildList(Children(t.node).value);
      if AllFull(m, cs) {
        InnerFull(m, h);
        UnfoldUnique(m, h, t, FullTree(m, h));
      }
      var i := LastNotFull(m, cs);
      ChildListHas(Children(t.node).value, cs[i]);
      var k :| 0 <= k < 16 && Children(t.node).value[k] == cs[i];
      NotFull(m, cs[i], t.kids[k]);
      var q := LastBad(m, cs[i], t.kids[k]);
      p := [i] + q;
      assert p[1..] == q;
    } else {
      p := [];
    }
  }

  lemma NotFull(m: NodeMap, h: Hash256, t: Tree)
    requires Unfolds(m, h, t) && !Full(m, h)
    ensures !Complete(t)
  {
  }

  lemma {:induction false} LastNotFull(m: NodeMap, hs: seq<Hash256>) returns (i: nat)
    requires !AllFull(m, hs)
    ensures i < |hs| && !Full(m, hs[i]) && AllFull(m, hs[i + 1..])
  {
    hide Full;
    if Full(m, hs[|hs| - 1]) {
      var front := hs[..|hs| - 1];
      AllFullSnoc(m, front, hs[|hs| - 1]);
      assert hs == front + [hs[|hs| - 1]];
      i := LastNotFull(m, front);
      assert hs[i + 1..] == front[i + 1..] + [hs[|hs| - 1]];
    } else {
      i := |hs| - 1;
    }
  }

  /** A node that is its own child. */
  function Loop(h: Hash256): Node {
    Node(h, Inner, Concat(Only(h)))
  }

  function Only(h: Hash256): Slots {
    seq(16, i => if i == 0 then h else ZERO_HASH)
  }

  /** On a state that holds such a node the walk below it never stops. */
  lemma LoopNeverStops(h: Hash256)
    requires h != ZERO_HASH
    ensures !WalkStops(map[h := Loop(h)], h)
  {
    hide WalkStops, Reach, Concat, FullChildren;
    var m := map[h := Loop(h)];
    FullChildrenOfConcat(Only(h));
    ReachRoot(m, h);
    assert Only(h)[0] == h && Linked(m, h, h);
    assert OnCycle(m, h);
    forall c | Linked(m, h, c) ensures c == h {
      var i :| 0 <= i < 16 && Only(h)[i] == c;
    }
    ClosedHoldsReach(m, h, {h});
    AcyclicIff(m, h);
  }
}
