/** The shape of the timer heap as a value: what `push`, `pop` and `remove` do to a binary tree
    whose nodes carry a subtree size and a rankable.  `LocHeap` mutates linked nodes and is proved
    to follow these functions; the heap's promises are proved here, under any ranking that is a
    total preorder. */
module HeapTree {
  datatype Tree<T> = Leaf | Node(size: int, data: T, left: Tree<T>, right: Tree<T>)

  /** `outRanks(x, y)` is `x.ranks(y) > 0`: asymmetric, and "does not out-rank" is transitive. */
  ghost predicate TotalPreorder<T(!new)>(outRanks: (T, T) -> bool) {
    && (forall x, y :: outRanks(x, y) ==> !outRanks(y, x))
    && (forall x, y, z :: outRanks(x, z) ==> outRanks(x, y) || outRanks(y, z))
  }

  // ---------- the operations ----------

  function Push<T>(t: Tree<T>, x: T, outRanks: (T, T) -> bool): (r: Tree<T>)
    ensures r.Node?
    decreases t
  {
    match t
    case Leaf => Node(1, x, Leaf, Leaf)
    case Node(size, data, left, right) =>
      var up := if outRanks(x, data) then x else data;
      var down := if outRanks(x, data) then data else x;
      if left.Leaf? then Node(size + 1, up, Node(1, down, Leaf, Leaf), right)
      else if right.Leaf? then Node(size + 1, up, left, Node(1, down, Leaf, Leaf))
      else if left.size <= right.size then Node(size + 1, up, Push(left, down, outRanks), right)
      else Node(size + 1, up, left, Push(right, down, outRanks))
  }

  /** Whether `pop` refills a node from its right child. */
  predicate FromRight<T>(left: Tree<T>, right: Tree<T>, outRanks: (T, T) -> bool) {
    left.Leaf? || (right.Node? && !outRanks(left.data, right.data))
  }

  /** The tree left when the top's data is popped. */
  function Pop<T>(t: Tree<T>, outRanks: (T, T) -> bool): Tree<T>
    requires t.Node?
    decreases t
  {
    if t.left.Leaf? && t.right.Leaf? then Leaf
    else if FromRight(t.left, t.right, outRanks) then
      Node(t.size - 1, t.right.data, t.left, Pop(t.right, outRanks))
    else
      Node(t.size - 1, t.left.data, Pop(t.left, outRanks), t.right)
  }

  /** Whether `remove` reaches `x`; it skips a subtree whose top `x` out-ranks. */
  predicate Finds<T(==)>(t: Tree<T>, x: T, outRanks: (T, T) -> bool) {
    t.Node? &&
    (x == t.data || (!outRanks(x, t.data) && (Finds(t.left, x, outRanks) || Finds(t.right, x, outRanks))))
  }

  function Remove<T(==)>(t: Tree<T>, x: T, outRanks: (T, T) -> bool): Tree<T>
    decreases t
  {
    if !Finds(t, x, outRanks) then t
    else if x == t.data then Pop(t, outRanks)
    else if Finds(t.left, x, outRanks) then t.(size := t.size - 1, left := Remove(t.left, x, outRanks))
    else t.(size := t.size - 1, right := Remove(t.right, x, outRanks))
  }

  lemma PopIgnoresTop<T>(t: Tree<T>, data: T, outRanks: (T, T) -> bool)
    requires t.Node?
    ensures Pop(t.(data := data), outRanks) == Pop(t, outRanks)
  {
  }

  lemma RemoveNothing<T>(x: T, outRanks: (T, T) -> bool)
    ensures !Finds(Leaf, x, outRanks) && Remove(Leaf, x, outRanks) == Leaf
  {
  }

  // ---------- what a heap is ----------

  ghost function Elements<T>(t: Tree<T>): multiset<T> {
    match t
    case Leaf => multiset{}
    case Node(_, data, left, right) => multiset{data} + Elements(left) + Elements(right)
  }

  function Size<T>(t: Tree<T>): int {
    if t.Leaf? then 0 else t.size
  }

  /** Every stored size counts the node and its subtrees. */
  ghost predicate Sized<T>(t: Tree<T>) {
    t.Node? ==> Sized(t.left) && Sized(t.right) && t.size == 1 + Size(t.left) + Size(t.right)
  }

  /** `t` is empty or its top does not out-rank `x`. */
  ghost predicate NotAbove<T>(t: Tree<T>, x: T, outRanks: (T, T) -> bool) {
    t.Node? ==> !outRanks(t.data, x)
  }

  /** No child out-ranks its parent, at every node. */
  ghost predicate Ordered<T>(t: Tree<T>, outRanks: (T, T) -> bool) {
    t.Node? ==>
      Ordered(t.left, outRanks) && Ordered(t.right, outRanks) &&
      NotAbove(t.left, t.data, outRanks) && NotAbove(t.right, t.data, outRanks)
  }

  // ---------- the promises ----------

  lemma NotAboveTransitive<T(!new)>(t: Tree<T>, x: T, y: T, outRanks: (T, T) -> bool)
    requires TotalPreorder(outRanks) && NotAbove(t, x, outRanks) && !outRanks(x, y)
    ensures NotAbove(t, y, outRanks)
  {
  }

  lemma {:induction false} SizedCounts<T>(t: Tree<T>)
    requires Sized(t)
    ensures Size(t) == |Elements(t)|
  {
    if t.Node? { SizedCounts(t.left); SizedCounts(t.right); }
  }

  /** The top of a heap is maximal among everything in it. */
  lemma {:induction false} TopIsMaximal<T(!new)>(t: Tree<T>, y: T, outRanks: (T, T) -> bool)
    requires TotalPreorder(outRanks) && Ordered(t, outRanks) && y in Elements(t)
    ensures !outRanks(y, t.data)
  {
    hide TotalPreorder;
    if y in Elements(t.left) {
      TopIsMaximal(t.left, y, outRanks);
      NotOutRanksTransitive(y, t.left.data, t.data, outRanks);
    } else if y in Elements(t.right) {
      TopIsMaximal(t.right, y, outRanks);
      NotOutRanksTransitive(y, t.right.data, t.data, outRanks);
    } else {
      NotOutRanksSelf(y, outRanks);
    }
  }

  lemma NotOutRanksTransitive<T(!new)>(x: T, y: T, z: T, outRanks: (T, T) -> bool)
    requires TotalPreorder(outRanks) && !outRanks(x, y) && !outRanks(y, z)
    ensures !outRanks(x, z)
  {
  }

  lemma NotOutRanksSelf<T(!new)>(x: T, outRanks: (T, T) -> bool)
    requires TotalPreorder(outRanks)
    ensures !outRanks(x, x)
  {
  }

  lemma OutRanksAsymmetric<T(!new)>(x: T, y: T, outRanks: (T, T) -> bool)
    requires TotalPreorder(outRanks) && outRanks(x, y)
    ensures !outRanks(y, x)
  {
  }

  /** Pushing adds exactly the one element, keeps sizes exact and keeps heap order. */
  lemma {:induction false} PushKeepsHeap<T(!new)>(t: Tree<T>, x: T, outRanks: (T, T) -> bool)
    requires TotalPreorder(outRanks) && Ordered(t, outRanks)
    ensures Ordered(Push(t, x, outRanks), outRanks)
    ensures Push(t, x, outRanks).data == if t.Leaf? || outRanks(x, t.data) then x else t.data
    decreases t
  {
    hide TotalPreorder;
    if t.Node? {
      var up := if outRanks(x, t.data) then x else t.data;
      var down := if outRanks(x, t.data) then t.data else x;
      if outRanks(x, t.data) {
        OutRanksAsymmetric(x, t.data, outRanks);
        NotAboveTransitive(t.left, t.data, x, outRanks);
        NotAboveTransitive(t.right, t.data, x, outRanks);
      }
      if t.left.Leaf? || t.right.Leaf? {
      } else if t.left.size <= t.right.size {
        PushKeepsHeap(t.left, down, outRanks);
      } else {
        PushKeepsHeap(t.right, down, outRanks);
      }
    }
  }

  lemma NodeElements<T>(size: int, data: T, left: Tree<T>, right: Tree<T>)
    ensures Elements(Node(size, data, left, right)) == multiset{data} + Elements(left) + Elements(right)
  {
  }

  lemma Regroup<T>(up: multiset<T>, down: multiset<T>, top: multiset<T>, x: multiset<T>,
                   l: multiset<T>, r: multiset<T>)
    requires up + down == top + x
    ensures up + (l + down) + r == top + l + r + x
    ensures up + l + (r + down) == top + l + r + x
  {
    assert up + (l + down) + r == (up + down) + l + r;
    assert up + l + (r + down) == (up + down) + l + r;
  }

  lemma {:induction false} PushAddsOne<T>(t: Tree<T>, x: T, outRanks: (T, T) -> bool)
    ensures Elements(Push(t, x, outRanks)) == Elements(t) + multiset{x}
    decreases t
  {
    hide Elements;
    if t.Leaf? {
      SingleElement(x);
    } else {
      var l, r := t.left, t.right;
      var up := if outRanks(x, t.data) then x else t.data;
      var down := if outRanks(x, t.data) then t.data else x;
      if l.Leaf? || (r.Node? && l.size <= r.size) {
        PushAddsOne(l, down, outRanks);
        AddedBelow(t, x, up, down, Push(l, down, outRanks), r);
      } else {
        PushAddsOne(r, down, outRanks);
        AddedBelow(t, x, up, down, l, Push(r, down, outRanks));
      }
    }
  }

  /** A node whose data and one subtree absorb the old top and a new element. */
  lemma AddedBelow<T>(t: Tree<T>, x: T, up: T, down: T, l: Tree<T>, r: Tree<T>)
    requires t.Node? && multiset{up, down} == multiset{t.data, x}
    requires (l == t.left && Elements(r) == Elements(t.right) + multiset{down}) ||
             (r == t.right && Elements(l) == Elements(t.left) + multiset{down})
    ensures Elements(Node(t.size + 1, up, l, r)) == Elements(t) + multiset{x}
  {
    hide Elements;
    NodeElements(t.size, t.data, t.left, t.right);
    NodeElements(t.size + 1, up, l, r);
    assert multiset{up} + multiset{down} == multiset{up, down};
    assert multiset{t.data} + multiset{x} == multiset{t.data, x};
    Regroup(multiset{up}, multiset{down}, multiset{t.data}, multiset{x},
            Elements(t.left), Elements(t.right));
  }

  lemma SingleElement<T>(x: T)
    ensures Elements(Node(1, x, Leaf, Leaf)) == Elements<T>(Leaf) + multiset{x}
  {
  }

  lemma NoElements<T>()
    ensures Elements<T>(Leaf) == multiset{}
  {
  }

  lemma {:induction false} PushCounts<T>(t: Tree<T>, x: T, outRanks: (T, T) -> bool)
    requires Sized(t)
    ensures Sized(Push(t, x, outRanks)) && Size(Push(t, x, outRanks)) == Size(t) + 1
    decreases t
  {
    if t.Node? && t.left.Node? && t.right.Node? {
      var down := if outRanks(x, t.data) then t.data else x;
      if t.left.size <= t.right.size {
        PushCounts(t.left, down, outRanks);
      } else {
        PushCounts(t.right, down, outRanks);
      }
    }
  }

  /** The lower of a new element and the old top goes into the left subtree if that is empty, or no larger
      than a right one that is not; otherwise into the right one.  The other subtree stays as it is. */
  lemma PushPlaces<T>(t: Tree<T>, x: T, outRanks: (T, T) -> bool)
    requires t.Node? && Sized(t)
    ensures var after, lower := Push(t, x, outRanks), if outRanks(x, t.data) then t.data else x;
            if Size(t.left) == 0 || 0 < Size(t.left) <= Size(t.right)
            then after.right == t.right && Elements(after.left) == Elements(t.left) + multiset{lower}
            else after.left == t.left && Elements(after.right) == Elements(t.right) + multiset{lower}
  {
    hide Elements;
    var lower := if outRanks(x, t.data) then t.data else x;
    SizePositive(t.left);
    SizePositive(t.right);
    PushAddsOne(t.left, lower, outRanks);
    PushAddsOne(t.right, lower, outRanks);
    SingleElement(lower);
  }

  /** Popping takes out exactly the top, keeps sizes exact and keeps heap order. */
  lemma {:induction false} PopTakesTop<T>(t: Tree<T>, outRanks: (T, T) -> bool)
    requires t.Node?
    ensures Elements(t) == Elements(Pop(t, outRanks)) + multiset{t.data}
    decreases t
  {
    hide Elements;
    NoElements<T>();
    NodeElements(t.size, t.data, t.left, t.right);
    if t.left.Leaf? && t.right.Leaf? {
    } else if FromRight(t.left, t.right, outRanks) {
      var rest := Pop(t.right, outRanks);
      PopTakesTop(t.right, outRanks);
      NodeElements(t.size - 1, t.right.data, t.left, rest);
      Regroup(multiset{t.data}, multiset{t.right.data}, multiset{t.right.data}, multiset{t.data},
              Elements(t.left), Elements(rest));
    } else {
      var rest := Pop(t.left, outRanks);
      PopTakesTop(t.left, outRanks);
      NodeElements(t.size - 1, t.left.data, rest, t.right);
      Regroup(multiset{t.data}, multiset{t.left.data}, multiset{t.left.data}, multiset{t.data},
              Elements(rest), Elements(t.right));
    }
  }

  lemma {:induction false} PopCounts<T>(t: Tree<T>, outRanks: (T, T) -> bool)
    requires t.Node? && Sized(t)
    ensures Sized(Pop(t, outRanks)) && Size(Pop(t, outRanks)) == Size(t) - 1
    decreases t
  {
    if t.left.Leaf? && t.right.Leaf? {
    } else if FromRight(t.left, t.right, outRanks) {
      PopCounts(t.right, outRanks);
    } else {
      PopCounts(t.left, outRanks);
    }
  }

  lemma {:induction false} PopKeepsHeap<T(!new)>(t: Tree<T>, outRanks: (T, T) -> bool)
    requires t.Node? && TotalPreorder(outRanks) && Ordered(t, outRanks)
    ensures Ordered(Pop(t, outRanks), outRanks)
    ensures NotAbove(Pop(t, outRanks), t.data, outRanks)
    decreases t
  {
    hide TotalPreorder;
    if t.left.Leaf? && t.right.Leaf? {
    } else if FromRight(t.left, t.right, outRanks) {
      PopKeepsHeap(t.right, outRanks);
    } else {
      PopKeepsHeap(t.left, outRanks);
      if t.right.Node? { OutRanksAsymmetric(t.left.data, t.right.data, outRanks); }
    }
  }

  /** What takes the popped top's place: the left subtree's top if it ranks strictly above the right one's or
      stands alone, else the right one's.  It leaves its subtree, and the other stays as it is. */
  lemma PopPromotes<T>(t: Tree<T>, outRanks: (T, T) -> bool)
    requires t.Node? && !(t.left.Leaf? && t.right.Leaf?)
    ensures var after := Pop(t, outRanks);
            if t.right.Leaf? || (t.left.Node? && outRanks(t.left.data, t.right.data))
            then after.Node? && after.data == t.left.data && after.right == t.right &&
                 Elements(t.left) == Elements(after.left) + multiset{t.left.data}
            else after.Node? && after.data == t.right.data && after.left == t.left &&
                 Elements(t.right) == Elements(after.right) + multiset{t.right.data}
  {
    hide Elements;
    if t.left.Node? { PopTakesTop(t.left, outRanks); }
    if t.right.Node? { PopTakesTop(t.right, outRanks); }
  }

  /** The search does not look below a top that its target out-ranks, heap or not. */
  lemma RemoveSkips<T>(t: Tree<T>, x: T, outRanks: (T, T) -> bool)
    requires t.Node? && outRanks(x, t.data) && x != t.data
    ensures !Finds(t, x, outRanks) && Remove(t, x, outRanks) == t
  {
  }

  /** `remove` finds its target exactly when it is in the heap: pruning by rank loses nothing. */
  lemma {:induction false} FindsIffPresent<T(!new)>(t: Tree<T>, x: T, outRanks: (T, T) -> bool)
    requires TotalPreorder(outRanks) && Ordered(t, outRanks)
    ensures Finds(t, x, outRanks) <==> x in Elements(t)
    decreases t
  {
    hide TotalPreorder;
    if t.Node? {
      FindsIffPresent(t.left, x, outRanks);
      FindsIffPresent(t.right, x, outRanks);
      if x in Elements(t) { TopIsMaximal(t, x, outRanks); }
    }
  }

  /** The found element is the only one taken out, in heap order or not. */
  lemma {:induction false} RemoveTakesOne<T>(t: Tree<T>, x: T, outRanks: (T, T) -> bool)
    requires Finds(t, x, outRanks)
    ensures Elements(t) == Elements(Remove(t, x, outRanks)) + multiset{x}
    decreases t
  {
    var l, r, d := Elements(t.left), Elements(t.right), multiset{t.data};
    if x == t.data {
      PopTakesTop(t, outRanks);
    } else if Finds(t.left, x, outRanks) {
      RemoveTakesOne(t.left, x, outRanks);
      assert Elements(Remove(t, x, outRanks)) == d + Elements(Remove(t.left, x, outRanks)) + r;
    } else {
      RemoveTakesOne(t.right, x, outRanks);
      assert Elements(Remove(t, x, outRanks)) == d + l + Elements(Remove(t.right, x, outRanks));
    }
  }

  lemma {:induction false} RemoveCounts<T>(t: Tree<T>, x: T, outRanks: (T, T) -> bool)
    requires Finds(t, x, outRanks) && Sized(t)
    ensures Sized(Remove(t, x, outRanks)) && Size(Remove(t, x, outRanks)) == Size(t) - 1
    decreases t
  {
    if x == t.data {
      PopCounts(t, outRanks);
    } else if Finds(t.left, x, outRanks) {
      RemoveCounts(t.left, x, outRanks);
    } else {
      RemoveCounts(t.right, x, outRanks);
    }
  }

  lemma {:induction false} RemoveKeepsHeap<T(!new)>(t: Tree<T>, x: T, outRanks: (T, T) -> bool)
    requires TotalPreorder(outRanks) && Ordered(t, outRanks)
    ensures Ordered(Remove(t, x, outRanks), outRanks)
    ensures t.Node? ==> NotAbove(Remove(t, x, outRanks), t.data, outRanks)
    decreases t
  {
    hide TotalPreorder;
    if t.Node? { NotOutRanksSelf(t.data, outRanks); }
    if !Finds(t, x, outRanks) {
    } else if x == t.data {
      PopKeepsHeap(t, outRanks);
    } else if Finds(t.left, x, outRanks) {
      RemoveKeepsHeap(t.left, x, outRanks);
      RemoveNotAbove(t.left, t.data, x, outRanks);
    } else {
      RemoveKeepsHeap(t.right, x, outRanks);
      RemoveNotAbove(t.right, t.data, x, outRanks);
    }
  }

  lemma RemoveNotAbove<T(!new)>(t: Tree<T>, y: T, x: T, outRanks: (T, T) -> bool)
    requires TotalPreorder(outRanks) && NotAbove(t, y, outRanks)
    requires t.Node? ==> NotAbove(Remove(t, x, outRanks), t.data, outRanks)
    ensures NotAbove(Remove(t, x, outRanks), y, outRanks)
  {
    if t.Node? { NotAboveTransitive(Remove(t, x, outRanks), t.data, y, outRanks); }
  }

  // ---------- popping everything ----------

  /** What repeated `pop` returns, in order. */
  ghost function Drain<T>(t: Tree<T>, outRanks: (T, T) -> bool): seq<T>
    decreases |Elements(t)|
  {
    if t.Leaf? then [] else
      PopTakesTop(t, outRanks);
      [t.data] + Drain(Pop(t, outRanks), outRanks)
  }

  ghost predicate Descending<T>(xs: seq<T>, outRanks: (T, T) -> bool) {
    forall i, j :: 0 <= i < j < |xs| ==> !outRanks(xs[j], xs[i])
  }

  lemma DescendingCons<T>(x: T, xs: seq<T>, outRanks: (T, T) -> bool)
    requires Descending(xs, outRanks) && forall y :: y in xs ==> !outRanks(y, x)
    ensures Descending([x] + xs, outRanks)
  {
  }

  /** Repeated `pop` yields every element, each no lower than all that follow it. */
  lemma {:induction false} DrainSorts<T(!new)>(t: Tree<T>, outRanks: (T, T) -> bool)
    requires TotalPreorder(outRanks) && Ordered(t, outRanks)
    ensures multiset(Drain(t, outRanks)) == Elements(t)
    ensures Descending(Drain(t, outRanks), outRanks)
    decreases |Elements(t)|
  {
    hide TotalPreorder;
    if t.Node? {
      PopTakesTop(t, outRanks);
      PopKeepsHeap(t, outRanks);
      var rest := Drain(Pop(t, outRanks), outRanks);
      DrainSorts(Pop(t, outRanks), outRanks);
      forall y | y in rest ensures !outRanks(y, t.data) {
        assert y in multiset(rest);
        TopIsMaximal(t, y, outRanks);
      }
      DescendingCons(t.data, rest, outRanks);
    }
  }

  // ---------- depth ----------

  /** At every node the left subtree has as many nodes as the right one, or one more. */
  ghost predicate Balanced<T>(t: Tree<T>) {
    t.Node? ==> Balanced(t.left) && Balanced(t.right) && 0 <= Size(t.left) - Size(t.right) <= 1
  }

  function Height<T>(t: Tree<T>): nat {
    if t.Leaf? then 0
    else 1 + (if Height(t.left) >= Height(t.right) then Height(t.left) else Height(t.right))
  }

  function Pow2(n: nat): nat {
    if n == 0 then 1 else 2 * Pow2(n - 1)
  }

  ghost function PushAll<T>(xs: seq<T>, outRanks: (T, T) -> bool): Tree<T> {
    if xs == [] then Leaf else Push(PushAll(xs[..|xs| - 1], outRanks), xs[|xs| - 1], outRanks)
  }

  lemma {:induction false} PushKeepsBalance<T>(t: Tree<T>, x: T, outRanks: (T, T) -> bool)
    requires Sized(t) && Balanced(t)
    ensures Balanced(Push(t, x, outRanks))
    decreases t
  {
    if t.Node? {
      var down := if outRanks(x, t.data) then t.data else x;
      if t.left.Leaf? {
        SizePositive(t.right);
      } else if t.right.Leaf? {
        SizePositive(t.left);
      } else if t.left.size <= t.right.size {
        PushCounts(t.left, down, outRanks);
        PushKeepsBalance(t.left, down, outRanks);
      } else {
        PushCounts(t.right, down, outRanks);
        PushKeepsBalance(t.right, down, outRanks);
      }
    }
  }

  lemma {:induction false} SizePositive<T>(t: Tree<T>)
    requires Sized(t)
    ensures Size(t) >= 0 && (Size(t) == 0 <==> t.Leaf?)
  {
    if t.Node? { SizePositive(t.left); SizePositive(t.right); }
  }

  lemma {:induction false} BalancedIsShallow<T>(t: Tree<T>)
    requires t.Node? && Sized(t) && Balanced(t)
    ensures Pow2(Height(t) - 1) <= t.size < Pow2(Height(t))
    decreases t
  {
    SizePositive(t.left);
    SizePositive(t.right);
    if t.left.Node? {
      BalancedIsShallow(t.left);
      if t.right.Node? {
        BalancedIsShallow(t.right);
        SizeFixesHeight(t.left.size, t.right.size, Height(t.left), Height(t.right));
      }
    }
  }

  lemma Pow2Monotone(m: nat, n: nat)
    requires m <= n
    ensures Pow2(m) <= Pow2(n)
    decreases n - m
  {
    if m < n { Pow2Monotone(m + 1, n); }
  }

  lemma SizeFixesHeight(s: int, t: int, h: nat, k: nat)
    requires 1 <= h && 1 <= k && 0 <= s - t <= 1
    requires Pow2(h - 1) <= s < Pow2(h) && Pow2(k - 1) <= t < Pow2(k)
    ensures h == k || (h == k + 1 && s == t + 1 == Pow2(k))
  {
    if h < k { Pow2Monotone(h, k - 1); }
    if h > k + 1 { Pow2Monotone(k + 1, h - 1); }
  }

  /** A heap built by pushes alone is balanced, so its height is logarithmic in its size. */
  lemma {:induction false} PushesStayShallow<T>(xs: seq<T>, outRanks: (T, T) -> bool)
    ensures var t := PushAll(xs, outRanks);
            Sized(t) && Size(t) == |xs| && Balanced(t) &&
            (xs != [] ==> Pow2(Height(t) - 1) <= |xs| < Pow2(Height(t)))
  {
    if xs != [] {
      var front, x := xs[..|xs| - 1], xs[|xs| - 1];
      PushesStayShallow(front, outRanks);
      var t := PushAll(front, outRanks);
      PushCounts(t, x, outRanks);
      PushKeepsBalance(t, x, outRanks);
      BalancedIsShallow(Push(t, x, outRanks));
    }
  }
}
