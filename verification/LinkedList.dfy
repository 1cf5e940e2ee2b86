/** The doubly linked list: nodes linked both ways that represent a sequence, newest element first. */
module LinkedList {
  import opened Options

  type Data = nat
  type Dealloc = nat

  datatype ErrType = SUCCESS | FAILURE_GENERAL | INVALID_PARAMETER | INVALID_HANDLE | UNAVAILABLE_RESOURCE

  datatype Element = Element(data: Data, dealloc: Option<Dealloc>)

  /** A call of an element's deallocation function on its data. */
  function DeallocOf(e: Element): seq<Element> {
    if e.dealloc.Some? then [e] else []
  }

  function DeallocsOf(s: seq<Element>): seq<Element> {
    if s == [] then [] else DeallocOf(s[0]) + DeallocsOf(s[1..])
  }

  /** Deallocation goes through a list from its head on. */
  lemma {:induction false} DeallocsInOrder(s: seq<Element>, t: seq<Element>)
    ensures DeallocsOf(s + t) == DeallocsOf(s) + DeallocsOf(t)
  {
    if s == [] {
      assert s + t == t;
    } else {
      assert (s + t)[1..] == s[1..] + t;
      DeallocsInOrder(s[1..], t);
    }
  }

  /** The place of the first element whose data equals `data0`, or the length if there is none. */
  function FirstMatch(s: seq<Element>, equal: (Data, Data) -> bool, data0: Data): (k: nat)
    ensures k <= |s|
  {
    if s == [] then 0 else if equal(data0, s[0].data) then 0 else 1 + FirstMatch(s[1..], equal, data0)
  }

  lemma {:induction false} FirstMatchIs(s: seq<Element>, equal: (Data, Data) -> bool, data0: Data, k: nat)
    requires k <= |s| && (k < |s| ==> equal(data0, s[k].data))
    requires forall i :: 0 <= i < k ==> !equal(data0, s[i].data)
    ensures FirstMatch(s, equal, data0) == k
  {
    if k > 0 {
      forall i | 0 <= i < k - 1 ensures !equal(data0, s[1..][i].data) {
        assert s[1..][i] == s[i + 1];
      }
      FirstMatchIs(s[1..], equal, data0, k - 1);
    }
  }

  class ListElement {
    var next: ListElement?
    var prev: ListElement?
    const data: Data
    const dealloc: Option<Dealloc>

    constructor (data: Data, dealloc: Option<Dealloc>)
      ensures this.data == data && this.dealloc == dealloc && next == null && prev == null
    {
      this.data, this.dealloc, next, prev := data, dealloc, null, null;
    }

    function Value(): Element {
      Element(data, dealloc)
    }
  }

  function Values(s: seq<ListElement>): (r: seq<Element>)
    ensures |r| == |s| && forall i :: 0 <= i < |s| ==> r[i] == s[i].Value()
  {
    seq(|s|, i requires 0 <= i < |s| => s[i].Value())
  }

  ghost function At(s: seq<ListElement>, i: int): ListElement? {
    if 0 <= i < |s| then s[i] else null
  }

  ghost predicate Distinct(s: seq<ListElement>) {
    forall i, j :: 0 <= i < j < |s| ==> s[i] != s[j]
  }

  ghost predicate Chain(head: ListElement?, tail: ListElement?, s: seq<ListElement>)
    reads s
  {
    && head == At(s, 0) && tail == At(s, |s| - 1)
    && Distinct(s)
    && (forall i {:trigger s[i].next} :: 0 <= i < |s| ==> s[i].next == At(s, i + 1))
    && (forall i {:trigger s[i].prev} :: 0 <= i < |s| ==> s[i].prev == At(s, i - 1))
  }

  class ListState {
    var head: ListElement?
    var tail: ListElement?
    ghost var spine: seq<ListElement>
    var deallocs: seq<Element>

    ghost predicate Valid()
      reads this, spine
    {
      Chain(head, tail, spine)
    }

    ghost function Contents(): seq<Element>
      reads this
    {
      Values(spine)
    }

    constructor ()
      ensures Valid() && Contents() == [] && deallocs == []
    {
      head, tail, spine, deallocs := null, null, [], [];
    }

    method Prepend(elem: ListElement)
      requires Valid() && elem !in spine && elem.next == null && elem.prev == null
      modifies this`head, this`tail, this`spine, spine, elem
      ensures Valid() && spine == [elem] + old(spine)
    {
      var tmp := head;
      head := elem;
      head.next := tmp;
      if tmp != null {
        tmp.prev := head;
      } else {
        tail := head;
      }
      spine := [elem] + spine;
    }

    method RemoveLast() returns (last: ListElement)
      requires Valid() && tail != null
      modifies this`head, this`tail, this`spine, spine
      ensures Valid() && old(spine) == spine + [last]
    {
      last := tail;
      tail := last.prev;
      if tail != null {
        tail.next := null;
      } else {
        head := tail;
      }
      spine := spine[..|spine| - 1];
    }

    /** Takes the node at place `k` out of the chain. */
    method Unlink(elem: ListElement, ghost k: nat)
      requires Valid() && k < |spine| && spine[k] == elem
      modifies this`head, this`tail, this`spine, spine
      ensures Valid() && spine == old(spine)[..k] + old(spine)[k + 1..]
      ensures elem.next == null && elem.prev == null
    {
      ghost var s := spine;
      if elem.prev == null {
        head := elem.next;
      } else {
        elem.prev.next := elem.next;
      }
      if elem.next == null {
        tail := elem.prev;
      } else {
        elem.next.prev := elem.prev;
      }
      elem.prev := null;
      elem.next := null;
      spine := spine[..k] + spine[k + 1..];
      Rechained(head, tail, s, k);
    }

    method Flush()
      requires Valid()
      modifies this
      ensures Valid() && spine == [] && Contents() == [] && head == null
      ensures deallocs == old(deallocs) + DeallocsOf(old(Contents()))
    {
      hide DeallocsOf, Distinct;
      ghost var k := 0;
      while head != null
        invariant k <= |spine| == |old(spine)| && spine == old(spine) && head == At(spine, k)
        invariant forall i {:trigger spine[i].next} :: 0 <= i < |spine| ==> spine[i].next == At(spine, i + 1)
        invariant deallocs + DeallocsOf(Values(spine)[k..]) == old(deallocs) + DeallocsOf(old(Contents()))
        decreases |spine| - k
      {
        var tmp := head.next;
        DeallocsStep(Values(spine), k);
        if head.dealloc.Some? {
          deallocs := deallocs + [head.Value()];
        }
        head := tmp;
        k := k + 1;
      }
      tail := null;
      spine := [];
      NothingLeft(Values(old(spine)));
    }

    /** Walks from the head to the first match. */
    method FindFirst(equal: (Data, Data) -> bool, data0: Data) returns (tmp: ListElement?, ghost k: nat)
      requires Valid()
      ensures k == FirstMatch(Contents(), equal, data0) && tmp == At(spine, k)
    {
      hide Distinct;
      tmp, k := head, 0;
      while tmp != null && !equal(data0, tmp.data)
        invariant k <= |spine| && tmp == At(spine, k)
        invariant forall i :: 0 <= i < k ==> !equal(data0, spine[i].data)
        decreases |spine| - k
      {
        tmp := tmp.next;
        k := k + 1;
      }
      FirstMatchIs(Contents(), equal, data0, k);
    }

    /** Looks for the first match from the head; takes it out of the chain when asked to. */
    method Search(wantData: bool, equal: (Data, Data) -> bool, data0: Data, rmIfFound: bool)
      returns (found: Option<Data>)
      requires Valid()
      modifies this, spine
      ensures Valid()
      ensures var s, k := old(Contents()), FirstMatch(old(Contents()), equal, data0);
              && found == (if k < |s| then Some(s[k].data) else None)
              && Contents() == (if k < |s| && rmIfFound then s[..k] + s[k + 1..] else s)
              && deallocs == old(deallocs) + if k < |s| && rmIfFound && !wantData then DeallocOf(s[k]) else []
      ensures forall x :: x in spine ==> x in old(spine)
    {
      hide FirstMatch, Chain;
      found := None;
      var tmp, k := FindFirst(equal, data0);
      if tmp != null {
        found := Some(tmp.data);
        if rmIfFound {
          Unlink(tmp, k);
          assert Values(old(spine)[..k] + old(spine)[k + 1..]) == old(Contents())[..k] + old(Contents())[k + 1..];
          if !wantData && tmp.dealloc.Some? {
            deallocs := deallocs + [tmp.Value()];
          }
        }
      }
    }
  }

  // ---------------------------------------------------------------- chains

  /** Linking past the node at `k` gives the chain without it. */
  lemma Rechained(head: ListElement?, tail: ListElement?, s: seq<ListElement>, k: nat)
    requires Distinct(s) && k < |s|
    requires head == At(s, if k == 0 then 1 else 0) && tail == At(s, if k == |s| - 1 then k - 1 else |s| - 1)
    requires forall i {:trigger s[i].next} :: 0 <= i < |s| && i != k ==>
               s[i].next == At(s, if i == k - 1 then k + 1 else i + 1)
    requires forall i {:trigger s[i].prev} :: 0 <= i < |s| && i != k ==>
               s[i].prev == At(s, if i == k + 1 then k - 1 else i - 1)
    ensures Chain(head, tail, s[..k] + s[k + 1..])
  {
    hide Distinct;
    var r := s[..k] + s[k + 1..];
    DistinctWithout(s, k);
    AtWithout(s, k, 0);
    AtWithout(s, k, |r| - 1);
    NextRechained(s, k);
    PrevRechained(s, k);
  }

  lemma NextRechained(s: seq<ListElement>, k: nat)
    requires k < |s|
    requires forall i {:trigger s[i].next} :: 0 <= i < |s| && i != k ==>
               s[i].next == At(s, if i == k - 1 then k + 1 else i + 1)
    ensures var r := s[..k] + s[k + 1..]; forall i {:trigger r[i].next} :: 0 <= i < |r| ==> r[i].next == At(r, i + 1)
  {
    var r := s[..k] + s[k + 1..];
    forall i | 0 <= i < |r| ensures r[i].next == At(r, i + 1) {
      AtWithout(s, k, i);
      AtWithout(s, k, i + 1);
    }
  }

  lemma PrevRechained(s: seq<ListElement>, k: nat)
    requires k < |s|
    requires forall i {:trigger s[i].prev} :: 0 <= i < |s| && i != k ==>
               s[i].prev == At(s, if i == k + 1 then k - 1 else i - 1)
    ensures var r := s[..k] + s[k + 1..]; forall i {:trigger r[i].prev} :: 0 <= i < |r| ==> r[i].prev == At(r, i - 1)
  {
    var r := s[..k] + s[k + 1..];
    forall i | 0 <= i < |r| ensures r[i].prev == At(r, i - 1) {
      AtWithout(s, k, i);
      AtWithout(s, k, i - 1);
    }
  }

  lemma NothingLeft(s: seq<Element>)
    ensures DeallocsOf(s[|s|..]) == [] && Distinct([])
  {
  }

  lemma AtWithout(s: seq<ListElement>, k: nat, i: int)
    requires k < |s|
    ensures At(s[..k] + s[k + 1..], i) == At(s, if i < k then i else i + 1)
  {
  }

  lemma DistinctWithout(s: seq<ListElement>, k: nat)
    requires Distinct(s) && k < |s|
    ensures Distinct(s[..k] + s[k + 1..])
  {
    var r := s[..k] + s[k + 1..];
    forall i, j | 0 <= i < j < |r| ensures r[i] != r[j] {
      assert r[i] == s[if i < k then i else i + 1] && r[j] == s[if j < k then j else j + 1];
    }
  }

  lemma DeallocsStep(s: seq<Element>, k: nat)
    requires k < |s|
    ensures DeallocsOf(s[k..]) == DeallocOf(s[k]) + DeallocsOf(s[k + 1..])
  {
    assert s[k..][1..] == s[k + 1..];
  }

  // ---------------------------------------------------------------- the functions of the interface

  ghost function Footprint(list: ListState?): set<object>
    reads list
  {
    if list == null then {} else {list} + set x: ListElement | x in list.spine
  }

  ghost predicate NullOrValid(list: ListState?)
    reads list, Footprint(list)
  {
    list == null || list.Valid()
  }

  /** `memory` tells whether the memory for the element can be had. */
  method Add(list: ListState?, dataObj: Option<Data>, dealloc: Option<Dealloc>, memory: bool) returns (err: ErrType)
    requires NullOrValid(list)
    modifies Footprint(list)
    ensures NullOrValid(list)
    ensures err == if list == null then INVALID_HANDLE else if dataObj.None? then INVALID_PARAMETER
                   else if memory then SUCCESS else FAILURE_GENERAL
    ensures list != null ==>
              && list.deallocs == old(list.deallocs)
              && list.Contents() ==
                 (if err.SUCCESS? then [Element(dataObj.value, dealloc)] else []) + old(list.Contents())
              && forall x :: x in list.spine ==> x in old(list.spine) || fresh(x)
  {
    if list == null {
      return INVALID_HANDLE;
    }
    if dataObj.None? {
      return INVALID_PARAMETER;
    }
    if !memory {
      return FAILURE_GENERAL;
    }
    var elem := new ListElement(dataObj.value, dealloc);
    list.Prepend(elem);
    return SUCCESS;
  }

  /** `dataObj` is written on success only. */
  method Remove(list: ListState?, wantData: bool) returns (err: ErrType, dataObj: Option<Data>)
    requires NullOrValid(list)
    modifies Footprint(list)
    ensures NullOrValid(list)
    ensures err == if list == null then INVALID_HANDLE else if !wantData then INVALID_PARAMETER
                   else if old(list.Contents()) == [] then UNAVAILABLE_RESOURCE else SUCCESS
    ensures dataObj.Some? <==> err.SUCCESS?
    ensures list != null ==>
              && list.deallocs == old(list.deallocs)
              && if err.SUCCESS?
                 then var s := old(list.Contents());
                      dataObj == Some(s[|s| - 1].data) && list.Contents() == s[..|s| - 1]
                 else list.Contents() == old(list.Contents())
    ensures list != null ==> forall x :: x in list.spine ==> x in old(list.spine)
  {
    if list == null {
      return INVALID_HANDLE, None;
    }
    if !wantData {
      return INVALID_PARAMETER, None;
    }
    if list.tail == null {
      return UNAVAILABLE_RESOURCE, None;
    }
    var last := list.RemoveLast();
    return SUCCESS, Some(last.data);
  }

  method Empty(list: ListState?) returns (r: int)
    requires NullOrValid(list)
    ensures r == if list == null then -3 else if list.Contents() == [] then 1 else 0
  {
    if list == null {
      return -3;
    }
    r := if list.head == null then 1 else 0;
  }

  method FlushList(list: ListState?) returns (err: ErrType)
    requires NullOrValid(list)
    modifies list
    ensures NullOrValid(list)
    ensures err == if list == null then INVALID_HANDLE else SUCCESS
    ensures list != null ==>
              && list.spine == [] && list.Contents() == []
              && list.deallocs == old(list.deallocs) + DeallocsOf(old(list.Contents()))
  {
    if list == null {
      return INVALID_HANDLE;
    }
    list.Flush();
    return SUCCESS;
  }

  /** `dataP` is what is written through `data_p`, if that is given (`wantData`): null or the data found. */
  method SearchList(list: ListState?, wantData: bool, equal: Option<(Data, Data) -> bool>, data0: Data, rmIfFound: bool)
    returns (err: ErrType, dataP: Option<Option<Data>>)
    requires NullOrValid(list)
    modifies Footprint(list)
    ensures NullOrValid(list)
    ensures err == if list == null || equal.None? then INVALID_HANDLE
                   else if old(list.Contents()) == [] then UNAVAILABLE_RESOURCE else SUCCESS
    ensures dataP.Some? <==> err.SUCCESS? && wantData
    ensures list != null && !err.SUCCESS? ==>
              list.Contents() == old(list.Contents()) && list.deallocs == old(list.deallocs)
    ensures list != null ==> forall x :: x in list.spine ==> x in old(list.spine)
    ensures err.SUCCESS? ==>
              var s := old(list.Contents());
              var k := FirstMatch(s, equal.value, data0);
              && (wantData ==> dataP.value == if k < |s| then Some(s[k].data) else None)
              && list.Contents() == (if k < |s| && rmIfFound then s[..k] + s[k + 1..] else s)
              && list.deallocs == old(list.deallocs) + if k < |s| && rmIfFound && !wantData then DeallocOf(s[k]) else []
  {
    if list == null || equal.None? {
      return INVALID_HANDLE, None;
    }
    if list.tail == null {
      return UNAVAILABLE_RESOURCE, None;
    }
    var found := list.Search(wantData, equal.value, data0, rmIfFound);
    return SUCCESS, if wantData then Some(found) else None;
  }

  // ---------------------------------------------------------------- the order of elements over a run

  datatype Op =
    | AddOp(e: Element)
    | RemoveOp
    | SearchRemoveOp(equal: (Data, Data) -> bool, data0: Data, wantData: bool)
    | FlushOp

  /** The list after a run, with what was added, what `remove` took, what a search handed out, what was
      discarded (flushed, or unlinked by a search that hands nothing out), and whose data was deallocated,
      each in order. */
  datatype Ledger = Ledger(
    contents: seq<Element>,
    added: seq<Element>,
    taken: seq<Element>,
    found: seq<Element>,
    discarded: seq<Element>,
    deallocs: seq<Element>)

  function After(l: Ledger, op: Op): Ledger {
    match op
    case AddOp(e) => l.(contents := [e] + l.contents, added := l.added + [e])
    case RemoveOp =>
      if l.contents == [] then l
      else l.(contents := l.contents[..|l.contents| - 1], taken := l.taken + [l.contents[|l.contents| - 1]])
    case SearchRemoveOp(equal, data0, wantData) =>
      var k := FirstMatch(l.contents, equal, data0);
      if k == |l.contents| then l
      else
        var left := l.(contents := l.contents[..k] + l.contents[k + 1..]);
        if wantData then left.(found := l.found + [l.contents[k]])
        else left.(discarded := l.discarded + [l.contents[k]], deallocs := l.deallocs + DeallocOf(l.contents[k]))
    case FlushOp =>
      l.(contents := [], discarded := l.discarded + l.contents, deallocs := l.deallocs + DeallocsOf(l.contents))
  }

  function Run(ops: seq<Op>): Ledger {
    if ops == [] then Ledger([], [], [], [], [], []) else After(Run(ops[..|ops| - 1]), ops[|ops| - 1])
  }

  function Reversed(s: seq<Element>): (r: seq<Element>)
    ensures |r| == |s|
  {
    if s == [] then [] else Reversed(s[1..]) + [s[0]]
  }

  predicate IsSubsequence(a: seq<Element>, b: seq<Element>) {
    if a == [] then true
    else if b == [] then false
    else IsSubsequence(a, b[..|b| - 1]) || (a[|a| - 1] == b[|b| - 1] && IsSubsequence(a[..|a| - 1], b[..|b| - 1]))
  }

  lemma {:induction false} ReversedConcat(s: seq<Element>, t: seq<Element>)
    ensures Reversed(s + t) == Reversed(t) + Reversed(s)
  {
    if s == [] {
      assert s + t == t;
    } else {
      ReversedConcat(s[1..], t);
      assert (s + t)[1..] == s[1..] + t;
    }
  }

  lemma ReversedParts(lo: seq<Element>, e: Element, hi: seq<Element>)
    ensures Reversed(lo + [e] + hi) == Reversed(hi) + [e] + Reversed(lo)
    ensures Reversed(lo + hi) == Reversed(hi) + Reversed(lo)
  {
    ReversedConcat(lo + [e], hi);
    ReversedConcat(lo, [e]);
    ReversedConcat(lo, hi);
    assert Reversed([e]) == [e];
  }

  lemma BothLonger(a: seq<Element>, b: seq<Element>, e: Element)
    requires IsSubsequence(a, b)
    ensures IsSubsequence(a + [e], b + [e]) && IsSubsequence(a, b + [e])
  {
    assert (a + [e])[..|a|] == a && (b + [e])[..|b|] == b;
  }

  lemma {:induction false} SubsequenceWithout(lo: seq<Element>, e: Element, hi: seq<Element>, b: seq<Element>)
    requires IsSubsequence(lo + [e] + hi, b)
    ensures IsSubsequence(lo + hi, b)
    decreases |b|
  {
    var a, shorter := lo + [e] + hi, b[..|b| - 1];
    assert b == shorter + [b[|b| - 1]];
    if IsSubsequence(a, shorter) {
      SubsequenceWithout(lo, e, hi, shorter);
      BothLonger(lo + hi, shorter, b[|b| - 1]);
    } else if hi == [] {
      assert a[..|a| - 1] == lo == lo + hi;
      BothLonger(lo, shorter, b[|b| - 1]);
    } else {
      var less, z := hi[..|hi| - 1], hi[|hi| - 1];
      assert a[..|a| - 1] == lo + [e] + less;
      SubsequenceWithout(lo, e, less, shorter);
      BothLonger(lo + less, shorter, z);
      assert lo + hi == lo + less + [z];
    }
  }

  lemma {:induction false} SubsequencePrefix(lo: seq<Element>, hi: seq<Element>, b: seq<Element>)
    requires IsSubsequence(lo + hi, b)
    ensures IsSubsequence(lo, b)
    decreases |hi|
  {
    if hi == [] {
      assert lo + hi == lo;
    } else {
      assert lo + hi == lo + [hi[0]] + hi[1..];
      SubsequenceWithout(lo, hi[0], hi[1..], b);
      SubsequencePrefix(lo, hi[1..], b);
    }
  }

  /** Over every run: elements leave by `remove` in the order in which they were added, and the ones
      still listed will, whatever searches take out from between them. */
  lemma {:induction false} LeavesInOrder(ops: seq<Op>)
    ensures var l := Run(ops); IsSubsequence(l.taken + Reversed(l.contents), l.added)
  {
    if ops != [] {
      LeavesInOrder(ops[..|ops| - 1]);
      StepInOrder(Run(ops[..|ops| - 1]), ops[|ops| - 1]);
    }
  }

  lemma StepInOrder(l: Ledger, op: Op)
    requires IsSubsequence(l.taken + Reversed(l.contents), l.added)
    ensures var m := After(l, op); IsSubsequence(m.taken + Reversed(m.contents), m.added)
  {
    hide IsSubsequence, Reversed, FirstMatch;
    var s := l.contents;
    match op
    case AddOp(e) =>
      BothLonger(l.taken + Reversed(s), l.added, e);
      AddInOrder(l.taken, e, s);
    case RemoveOp =>
      if s != [] {
        var n := |s| - 1;
        assert s == s[..n] + [s[n]];
        RemoveInOrder(l.taken, s[..n], s[n]);
      }
    case SearchRemoveOp(equal, data0, _) =>
      var k := FirstMatch(s, equal, data0);
      if k < |s| {
        assert s == s[..k] + [s[k]] + s[k + 1..];
        DropInOrder(l.taken, s[..k], s[k], s[k + 1..], l.added);
      }
    case FlushOp =>
      SubsequencePrefix(l.taken, Reversed(s), l.added);
      NothingReversed(l.taken);
  }

  lemma NothingReversed(taken: seq<Element>)
    ensures taken + Reversed([]) == taken
  {
  }

  lemma AddInOrder(taken: seq<Element>, e: Element, s: seq<Element>)
    ensures taken + Reversed([e] + s) == taken + Reversed(s) + [e]
  {
    assert ([e] + s)[1..] == s;
  }

  lemma RemoveInOrder(taken: seq<Element>, s: seq<Element>, e: Element)
    ensures taken + [e] + Reversed(s) == taken + Reversed(s + [e])
  {
    hide *;
    ReversedParts(s, e, []);
    assert s + [e] + [] == s + [e] && [] + Reversed(s) == Reversed(s);
    NothingReversed([]);
    assert [] + Reversed([]) == Reversed([]);
    assert taken + [e] + Reversed(s) == taken + ([e] + Reversed(s));
  }

  lemma DropInOrder(taken: seq<Element>, lo: seq<Element>, e: Element, hi: seq<Element>, added: seq<Element>)
    requires IsSubsequence(taken + Reversed(lo + [e] + hi), added)
    ensures IsSubsequence(taken + Reversed(lo + hi), added)
  {
    hide *;
    ReversedParts(lo, e, hi);
    assert taken + Reversed(lo + [e] + hi) == (taken + Reversed(hi)) + [e] + Reversed(lo);
    SubsequenceWithout(taken + Reversed(hi), e, Reversed(lo), added);
    assert taken + Reversed(lo + hi) == taken + Reversed(hi) + Reversed(lo);
  }

  function Count(s: seq<Element>, e: Element): nat {
    if s == [] then 0 else Count(s[..|s| - 1], e) + if s[|s| - 1] == e then 1 else 0
  }

  lemma {:induction false} CountConcat(s: seq<Element>, t: seq<Element>, e: Element)
    ensures Count(s + t, e) == Count(s, e) + Count(t, e)
  {
    if t == [] {
      assert s + t == s;
    } else {
      CountConcat(s, t[..|t| - 1], e);
      assert (s + t)[..|s + t| - 1] == s + t[..|t| - 1];
    }
  }

  ghost predicate Balanced(l: Ledger, e: Element) {
    Count(l.added, e) == Count(l.contents, e) + Count(l.taken, e) + Count(l.found, e) + Count(l.discarded, e)
  }

  /** Over every run each element that was added is still listed or has left exactly once. */
  lemma {:induction false} ElementsConserved(ops: seq<Op>, e: Element)
    ensures Balanced(Run(ops), e)
  {
    if ops != [] {
      ElementsConserved(ops[..|ops| - 1], e);
      StepConserves(Run(ops[..|ops| - 1]), ops[|ops| - 1], e);
    }
  }

  lemma StepConserves(l: Ledger, op: Op, e: Element)
    requires Balanced(l, e)
    ensures Balanced(After(l, op), e)
  {
    hide Count, FirstMatch;
    var s := l.contents;
    match op
    case AddOp(x) =>
      CountConcat([x], s, e);
      CountConcat(l.added, [x], e);
    case RemoveOp =>
      if s != [] {
        var n := |s| - 1;
        assert s == s[..n] + [s[n]];
        CountConcat(s[..n], [s[n]], e);
        CountConcat(l.taken, [s[n]], e);
      }
    case SearchRemoveOp(equal, data0, _) =>
      var k := FirstMatch(s, equal, data0);
      if k < |s| {
        assert s == s[..k] + [s[k]] + s[k + 1..];
        CountConcat(s[..k] + [s[k]], s[k + 1..], e);
        CountConcat(s[..k], [s[k]], e);
        CountConcat(s[..k], s[k + 1..], e);
        CountConcat(l.found, [s[k]], e);
        CountConcat(l.discarded, [s[k]], e);
      }
    case FlushOp =>
      CountConcat(l.discarded, s, e);
      CountConcat(l.discarded, [], e);
      assert l.discarded + [] == l.discarded;
  }

  lemma {:induction false} DeallocsCount(s: seq<Element>, e: Element)
    ensures Count(DeallocsOf(s), e) == if e.dealloc.Some? then Count(s, e) else 0
  {
    if s != [] {
      DeallocsCount(s[1..], e);
      assert s == [s[0]] + s[1..];
      CountConcat([s[0]], s[1..], e);
      CountConcat(DeallocOf(s[0]), DeallocsOf(s[1..]), e);
    }
  }

  /** Over every run the data of an element is deallocated exactly as often as the element is discarded,
      if it came with a function for that, and otherwise never: so never when it was handed out. */
  lemma {:induction false} DeallocatedIffDiscarded(ops: seq<Op>, e: Element)
    ensures var l := Run(ops); Count(l.deallocs, e) == if e.dealloc.Some? then Count(l.discarded, e) else 0
  {
    if ops != [] {
      DeallocatedIffDiscarded(ops[..|ops| - 1], e);
      StepDeallocates(Run(ops[..|ops| - 1]), ops[|ops| - 1], e);
    }
  }

  lemma StepDeallocates(l: Ledger, op: Op, e: Element)
    requires Count(l.deallocs, e) == if e.dealloc.Some? then Count(l.discarded, e) else 0
    ensures var m := After(l, op); Count(m.deallocs, e) == if e.dealloc.Some? then Count(m.discarded, e) else 0
  {
    hide FirstMatch;
    var s := l.contents;
    match op
    case SearchRemoveOp(equal, data0, _) =>
      var k := FirstMatch(s, equal, data0);
      if k < |s| {
        CountConcat(l.discarded, [s[k]], e);
        CountConcat(l.deallocs, DeallocOf(s[k]), e);
      }
    case FlushOp =>
      CountConcat(l.discarded, s, e);
      CountConcat(l.deallocs, DeallocsOf(s), e);
      DeallocsCount(s, e);
    case _ =>
  }

  // ---------------------------------------------------------------- the list object over a run

  function DataOf(s: seq<Element>): (r: seq<Data>)
    ensures |r| == |s|
  {
    seq(|s|, i requires 0 <= i < |s| => s[i].data)
  }

  /** One operation through the interface; `data` is what `remove` returns. */
  method Perform(list: ListState, op: Op, ghost l: Ledger) returns (data: seq<Data>)
    requires list.Valid() && list.Contents() == l.contents && list.deallocs == l.deallocs
    modifies Footprint(list)
    ensures list.Valid() && forall x :: x in list.spine ==> x in old(list.spine) || fresh(x)
    ensures var m := After(l, op);
            && list.Contents() == m.contents && list.deallocs == m.deallocs
            && DataOf(l.taken) + data == DataOf(m.taken)
  {
    hide FirstMatch, DeallocsOf;
    data := [];
    match op {
      case AddOp(e) =>
        var _ := Add(list, Some(e.data), e.dealloc, true);
      case RemoveOp =>
        var err, dataObj := Remove(list, true);
        if err.SUCCESS? {
          data := [dataObj.value];
        }
      case SearchRemoveOp(equal, data0, wantData) =>
        var _, _ := SearchList(list, wantData, Some(equal), data0, true);
      case FlushOp =>
        var _ := FlushList(list);
    }
  }

  /** The list object run over any operations holds, has handed out and has deallocated what the run
      says, so the results on runs hold of it. */
  method RunList(ops: seq<Op>) returns (list: ListState, data: seq<Data>)
    ensures fresh(list) && list.Valid()
    ensures list.Contents() == Run(ops).contents && list.deallocs == Run(ops).deallocs
    ensures data == DataOf(Run(ops).taken)
  {
    hide After;
    list := new ListState();
    data := [];
    for i := 0 to |ops|
      invariant fresh(list) && list.Valid() && forall x :: x in list.spine ==> fresh(x)
      invariant list.Contents() == Run(ops[..i]).contents && list.deallocs == Run(ops[..i]).deallocs
      invariant data == DataOf(Run(ops[..i]).taken)
    {
      var more := Perform(list, ops[i], Run(ops[..i]));
      assert ops[..i + 1][..i] == ops[..i];
      data := data + more;
    }
    assert ops[..|ops|] == ops;
  }
}
