/** The pointer heap of the timer service: nodes whose data is swapped while their links stay put.
    Every method is proved to do to the linked nodes what the function of the same name in
    `HeapTree` does to a tree. */
module LocHeap {
  import opened HeapTree
  import opened Options

  class LocHeapNode<T(!new, ==)> {
    // size of the subtree, this node included
    var mSize: int
    var mLeft: LocHeapNode?<T>
    var mRight: LocHeapNode?<T>
    var mData: T
    ghost var Repr: set<object>
    ghost var Shape: Tree<T>

    /** The node's shape follows its fields. */
    ghost predicate Valid()
      reads this, Repr
      ensures Valid() ==> this in Repr && Shape.Node? && Shape.size == mSize && Shape.data == mData
      decreases Repr, 1
    {
      Linked() && Shape == Node(mSize, mData, ShapeOf(mLeft), ShapeOf(mRight))
    }

    /** The children are valid and share no node with each other or with this one. */
    ghost predicate Linked()
      reads this, Repr
      ensures Linked() ==> this in Repr
      decreases Repr, 0
    {
      && this in Repr
      && (mLeft != null ==> mLeft in Repr && mLeft.Repr <= Repr && this !in mLeft.Repr && mLeft.Valid())
      && (mRight != null ==> mRight in Repr && mRight.Repr <= Repr && this !in mRight.Repr && mRight.Valid())
      && (mLeft != null && mRight != null ==> mLeft.Repr !! mRight.Repr)
    }

    static ghost function ShapeOf(n: LocHeapNode?<T>): Tree<T>
      reads n
    {
      if n == null then Leaf else n.Shape
    }

    constructor (data: T)
      ensures Valid() && Repr == {this} && Shape == Node(1, data, Leaf, Leaf)
    {
      mSize, mLeft, mRight, mData := 1, null, null, data;
      Repr, Shape := {this}, Node(1, data, Leaf, Leaf);
    }

    /** Adds the single node `node`, swapping data with it where it ranks higher. */
    method Push(node: LocHeapNode<T>, outRanks: (T, T) -> bool)
      requires Valid() && node.Valid() && node !in Repr && node.Repr == {node}
      requires node.Shape == Node(1, node.mData, Leaf, Leaf)
      modifies Repr, node
      ensures Valid() && Repr == old(Repr) + {node}
      ensures Shape == HeapTree.Push(old(Shape), old(node.mData), outRanks)
      decreases Repr, 1
    {
      if outRanks(node.mData, mData) {
        mData, node.mData := node.mData, mData;
        node.Shape := Node(1, node.mData, Leaf, Leaf);
      }
      PushBelow(node, outRanks);
      mSize := mSize + 1;
      Shape := Node(mSize, mData, ShapeOf(mLeft), ShapeOf(mRight));
    }

    /** Drops the node into the smaller subtree, or into the first free place. */
    method PushBelow(node: LocHeapNode<T>, outRanks: (T, T) -> bool)
      requires Linked() && node.Valid() && node !in Repr && node.Repr == {node}
      requires node.Shape == Node(1, node.mData, Leaf, Leaf)
      modifies Repr, node
      ensures Linked() && Repr == old(Repr) + {node} && mData == old(mData) && mSize == old(mSize)
      ensures
        var left, right, data := old(ShapeOf(mLeft)), old(ShapeOf(mRight)), old(node.mData);
        if left.Leaf? || (right.Node? && left.size <= right.size)
        then ShapeOf(mLeft) == HeapTree.Push(left, data, outRanks) && ShapeOf(mRight) == right
        else ShapeOf(mLeft) == left && ShapeOf(mRight) == HeapTree.Push(right, data, outRanks)
      decreases Repr, 0
    {
      if mLeft == null {
        mLeft := node;
      } else if mRight == null {
        mRight := node;
      } else if mLeft.mSize <= mRight.mSize {
        mLeft.Push(node, outRanks);
      } else {
        mRight.Push(node, outRanks);
      }
      Repr := Repr + {node};
    }

    /** Detaches a leaf after moving the top's data down to it.  `newTop` is what the caller's
        pointer to `top` becomes. */
    static method Pop(top: LocHeapNode<T>, outRanks: (T, T) -> bool)
      returns (popped: LocHeapNode<T>, newTop: LocHeapNode?<T>)
      requires top.Valid()
      modifies top.Repr
      ensures popped in old(top.Repr) && popped.mData == old(top.mData)
      ensures newTop == null || (newTop == top && top.Valid() && top.Repr <= old(top.Repr) - {popped})
      ensures ShapeOf(newTop) == HeapTree.Pop(old(top.Shape), outRanks)
      decreases top.Repr, 0
    {
      top.mSize := top.mSize - 1;
      if top.mLeft != null || top.mRight != null {
        if top.mLeft == null || (top.mRight != null && !outRanks(top.mLeft.mData, top.mRight.mData)) {
          popped, top.mRight := SwapAndPop(top, top.mRight, outRanks);
        } else {
          popped, top.mLeft := SwapAndPop(top, top.mLeft, outRanks);
        }
        newTop := top;
        top.Repr := top.Repr - {popped};
        top.Shape := Node(top.mSize, top.mData, ShapeOf(top.mLeft), ShapeOf(top.mRight));
      } else {
        popped, newTop := top, null;
      }
    }

    /** Swaps the data of `top` with that of its child `sub` and pops from the child's subtree. */
    static method SwapAndPop(top: LocHeapNode<T>, sub: LocHeapNode<T>, outRanks: (T, T) -> bool)
      returns (popped: LocHeapNode<T>, newSub: LocHeapNode?<T>)
      requires sub.Valid() && top !in sub.Repr
      modifies top`mData, sub.Repr
      ensures top.mData == old(sub.mData)
      ensures popped in old(sub.Repr) && popped.mData == old(top.mData)
      ensures newSub == null || (newSub == sub && sub.Valid() && sub.Repr <= old(sub.Repr) - {popped})
      ensures ShapeOf(newSub) == HeapTree.Pop(old(sub.Shape), outRanks)
      decreases sub.Repr, 1
    {
      top.mData, sub.mData := sub.mData, top.mData;
      sub.Shape := sub.Shape.(data := sub.mData);
      PopIgnoresTop(old(sub.Shape), sub.mData, outRanks);
      popped, newSub := Pop(sub, outRanks);
    }

    /** Unlinks the node that ends up holding `data`, if the rank-guided search reaches `data`. */
    static method Remove(top: LocHeapNode<T>, data: T, outRanks: (T, T) -> bool)
      returns (removed: LocHeapNode?<T>, newTop: LocHeapNode?<T>)
      requires top.Valid()
      modifies top.Repr
      ensures removed != null <==> Finds(old(top.Shape), data, outRanks)
      ensures removed != null ==> removed in old(top.Repr) && removed.mData == data
      ensures removed == null ==> newTop == top && top.Repr == old(top.Repr)
      ensures newTop == null ||
              (newTop == top && top.Valid() && top.Repr <= old(top.Repr) - {removed})
      ensures ShapeOf(newTop) == HeapTree.Remove(old(top.Shape), data, outRanks)
      decreases top.Repr, 1
    {
      removed, newTop := null, top;
      if data == top.mData {
        removed, newTop := Pop(top, outRanks);
      } else if !outRanks(data, top.mData) {
        removed := top.RemoveBelow(data, outRanks);
        if removed != null {
          top.mSize := top.mSize - 1;
        }
        top.Shape := Node(top.mSize, top.mData, ShapeOf(top.mLeft), ShapeOf(top.mRight));
      }
    }

    /** Searches the left subtree, then the right one. */
    method RemoveBelow(data: T, outRanks: (T, T) -> bool) returns (removed: LocHeapNode?<T>)
      requires Linked()
      modifies Repr
      ensures Linked() && mData == old(mData) && mSize == old(mSize) && Repr <= old(Repr) - {removed}
      ensures removed != null <==>
              Finds(old(ShapeOf(mLeft)), data, outRanks) || Finds(old(ShapeOf(mRight)), data, outRanks)
      ensures removed != null ==> removed in old(Repr) && removed.mData == data
      ensures removed == null ==> Repr == old(Repr)
      ensures ShapeOf(mLeft) == HeapTree.Remove(old(ShapeOf(mLeft)), data, outRanks)
      ensures ShapeOf(mRight) == if Finds(old(ShapeOf(mLeft)), data, outRanks) then old(ShapeOf(mRight))
                                 else HeapTree.Remove(old(ShapeOf(mRight)), data, outRanks)
      decreases Repr, 0
    {
      hide HeapTree.Remove, Finds;
      removed := null;
      RemoveNothing(data, outRanks);
      if mLeft != null {
        removed, mLeft := Remove(mLeft, data, outRanks);
        if removed != null {
          assert mRight != null ==> mRight.Repr <= Repr - {removed};
          assert mLeft != null ==> mLeft.Repr <= Repr - {removed};
          Repr := Repr - {removed};
          return;
        }
      }
      if mRight != null {
        removed, mRight := Remove(mRight, data, outRanks);
        if removed != null {
          assert mLeft != null ==> mLeft.Repr <= Repr - {removed} && mLeft.Valid();
          assert mRight != null ==> mRight.Repr <= Repr - {removed} && mRight.Valid();
          Repr := Repr - {removed};
          assert mLeft != null ==> mLeft.Valid();
          assert mRight != null ==> mRight.Valid();
        }
      }
    }

    /** The consistency check: true exactly when all sizes are exact and heap order holds. */
    method CheckNodes(outRanks: (T, T) -> bool) returns (ok: bool)
      requires Valid()
      ensures ok <==> Sized(Shape) && Ordered(Shape, outRanks)
      decreases Repr
    {
      var totalSize := mSize;
      if mLeft != null {
        if outRanks(mLeft.mData, mData) {
          return false;
        }
        var leftOk := mLeft.CheckNodes(outRanks);
        if !leftOk {
          return false;
        }
        totalSize := totalSize - mLeft.mSize;
      }
      if mRight != null {
        if outRanks(mRight.mData, mData) {
          return false;
        }
        var rightOk := mRight.CheckNodes(outRanks);
        if !rightOk {
          return false;
        }
        totalSize := totalSize - mRight.mSize;
      }
      return totalSize == 1;
    }
  }

  /** The heap proper: an empty or linked tree that is always correctly sized and in heap order. */
  class LocHeap<T(!new, ==)> {
    const outRanks: (T, T) -> bool
    var mTree: LocHeapNode?<T>
    ghost var Repr: set<object>

    ghost predicate Valid()
      reads this, Repr
      ensures Valid() ==> this in Repr
    {
      && this in Repr
      && (mTree != null ==> mTree in Repr && mTree.Repr <= Repr && this !in mTree.Repr && mTree.Valid())
      && TotalPreorder(outRanks) && Sized(Shape()) && Ordered(Shape(), outRanks)
    }

    ghost function Shape(): Tree<T>
      reads this, mTree
    {
      LocHeapNode.ShapeOf(mTree)
    }

    ghost function Contents(): multiset<T>
      reads this, mTree
    {
      Elements(Shape())
    }

    constructor (outRanks: (T, T) -> bool)
      requires TotalPreorder(outRanks)
      ensures Valid() && fresh(Repr) && this.outRanks == outRanks && Shape() == Leaf
    {
      this.outRanks, mTree, Repr := outRanks, null, {this};
    }

    method Push(data: T)
      requires Valid()
      modifies Repr
      ensures Valid() && fresh(Repr - old(Repr))
      ensures Shape() == HeapTree.Push(old(Shape()), data, outRanks)
      ensures Contents() == old(Contents()) + multiset{data}
    {
      hide TotalPreorder, Sized, Ordered, Elements;
      PushKeepsHeap(Shape(), data, outRanks);
      PushAddsOne(Shape(), data, outRanks);
      PushCounts(Shape(), data, outRanks);
      var heapNode := new LocHeapNode(data);
      if mTree == null {
        mTree := heapNode;
      } else {
        mTree.Push(heapNode, outRanks);
      }
      Repr := Repr + {heapNode};
    }

    /** The highest-ranking element, if any. */
    method Peek() returns (top: Option<T>)
      requires Valid()
      ensures top == (if Shape().Leaf? then None else Some(Shape().data))
      ensures top.None? <==> Contents() == multiset{}
      ensures top.Some? ==> top.value in Contents() && forall y :: y in Contents() ==> !outRanks(y, top.value)
    {
      top := None;
      if mTree != null {
        top := Some(mTree.mData);
        forall y | y in Contents() ensures !outRanks(y, mTree.mData) {
          TopIsMaximal(Shape(), y, outRanks);
        }
      }
    }

    /** Takes out the highest-ranking element, if any. */
    method Pop() returns (top: Option<T>)
      requires Valid()
      modifies Repr
      ensures Valid() && Repr <= old(Repr)
      ensures top == (if old(Shape()).Leaf? then None else Some(old(Shape()).data))
      ensures top.None? ==> Shape() == Leaf && old(Contents()) == Contents() == multiset{}
      ensures top.Some? ==> Shape() == HeapTree.Pop(old(Shape()), outRanks)
      ensures top.Some? ==> old(Contents()) == Contents() + multiset{top.value}
      ensures top.Some? ==> forall y :: y in Contents() ==> !outRanks(y, top.value)
    {
      hide TotalPreorder, Sized, Ordered, Elements;
      NoElements<T>();
      top := None;
      if mTree != null {
        ghost var before := Shape();
        PopTakesTop(before, outRanks);
        PopCounts(before, outRanks);
        PopKeepsHeap(before, outRanks);
        var heapNode;
        heapNode, mTree := LocHeapNode.Pop(mTree, outRanks);
        top := Some(heapNode.mData);
        forall y | y in Contents() ensures !outRanks(y, before.data) {
          TopIsMaximal(before, y, outRanks);
        }
      }
    }

    /** Takes out `data`; succeeds exactly when it is in the heap. */
    method Remove(data: T) returns (removed: Option<T>)
      requires Valid()
      modifies Repr
      ensures Valid() && Repr <= old(Repr)
      ensures removed == if data in old(Contents()) then Some(data) else None
      ensures Shape() == HeapTree.Remove(old(Shape()), data, outRanks)
      ensures Contents() == old(Contents()) - multiset{data}
    {
      hide TotalPreorder, Sized, Ordered, Elements;
      removed := None;
      ghost var before := Shape();
      FindsIffPresent(before, data, outRanks);
      RemoveKeepsHeap(before, data, outRanks);
      if Finds(before, data, outRanks) {
        RemoveTakesOne(before, data, outRanks);
        RemoveCounts(before, data, outRanks);
      }
      if mTree != null {
        var heapNode;
        heapNode, mTree := LocHeapNode.Remove(mTree, data, outRanks);
        if heapNode != null {
          removed := Some(heapNode.mData);
        }
      }
    }

    /** The stored size of the top is the number of elements. */
    method GetTreeSize() returns (size: int)
      requires Valid()
      ensures size == |Contents()|
    {
      SizedCounts(Shape());
      size := if mTree == null then 0 else mTree.mSize;
    }

    /** The consistency check always succeeds. */
    method CheckTree() returns (ok: bool)
      requires Valid()
      ensures ok
    {
      ok := true;
      if mTree != null {
        ok := mTree.CheckNodes(outRanks);
      }
    }
  }
}
