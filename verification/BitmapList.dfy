/** The element list of a sparse bitmap, and the free list that its elements come from and go to. */
module BitmapList {
  import opened BitmapWords
  import opened BitmapEntries

  class Element {
    var next: Element?
    var prev: Element?
    var indx: nat
    var bits: seq<Word>

    constructor ()
      ensures |bits| == ELEMENT_WORDS
    {
      next, prev, indx, bits := null, null, 0, ZERO_WORDS;
    }
  }

  ghost function Nodes(l: seq<Element>): set<Element> {
    set e | e in l
  }

  ghost predicate Distinct(l: seq<Element>) {
    forall i, j :: 0 <= i < j < |l| ==> l[i] != l[j]
  }

  function At(l: seq<Element>, i: int): Element? {
    if 0 <= i < |l| then l[i] else null
  }

  /** `l` is chained through `next` and ends with null. */
  ghost predicate NextLinked(l: seq<Element>)
    reads Nodes(l)`next
  {
    forall i :: 0 <= i < |l| ==> l[i].next == At(l, i + 1)
  }

  /** A stack of inner lists: heads are chained through `prev`, each inner list through `next`. */
  ghost predicate Lists(top: Element?, ls: seq<seq<Element>>, s: set<Element>)
    reads s`next, s`prev
    decreases |ls|
  {
    if ls == [] then top == null && s == {}
    else
      && top != null && ls[0] != [] && ls[0][0] == top && top in s
      && Distinct(ls[0]) && Nodes(ls[0]) <= s && NextLinked(ls[0])
      && Lists(top.prev, ls[1..], s - Nodes(ls[0]))
  }

  /** Without the first element of the first inner list, which goes when it becomes empty. */
  ghost function Popped(ls: seq<seq<Element>>): seq<seq<Element>> {
    if ls == [] || ls[0] == [] then ls else if |ls[0]| == 1 then ls[1..] else [ls[0][1..]] + ls[1..]
  }

  class Obstack {
    var elements: Element?
    ghost var lists: seq<seq<Element>>
    ghost var free: set<Element>

    ghost predicate Valid()
      reads `elements, `lists, `free, free`next, free`prev
    {
      Lists(elements, lists, free)
    }

    constructor ()
      ensures Valid() && free == {}
    {
      elements, lists, free := null, [], {};
    }

    /** Takes an element off the free list, or makes one; its bits are cleared, nothing else is. */
    method Allocate() returns (element: Element)
      requires Valid()
      modifies this, free
      ensures Valid() && free == old(free) - {element}
      ensures element in old(free) || fresh(element)
      ensures element.bits == ZERO_WORDS
      ensures if old(elements) == null then fresh(element) && lists == old(lists) else element == old(elements) && lists == Popped(old(lists))
    {
      if elements != null {
        element := elements;
        ghost var l, rest, below := lists[0], lists[1..], element.prev;
        ghost var s := free - Nodes(l);
        assert Lists(below, rest, s);
        assert Nodes(l) == {element} + Nodes(l[1..]);
        if element.next != null {
          elements := element.next;
          assert elements == l[1];
          elements.prev := element.prev;
          lists := [l[1..]] + rest;
        } else {
          elements := element.prev;
          lists := rest;
          assert |l| == 1;
        }
        free := free - {element};
        element.bits := ZERO_WORDS;
        assert Lists(below, rest, s);
        assert if lists == rest then free == s else free - Nodes(l[1..]) == s && lists[1..] == rest;
      } else {
        element := new Element();
        element.bits := ZERO_WORDS;
      }
    }

    /** Puts a single element on the free list. */
    method ElemToFreelist(elt: Element)
      requires Valid() && elt !in free
      modifies this, elt`next, elt`prev
      ensures Valid() && free == old(free) + {elt}
    {
      hide Lists;
      elt.next := null;
      SingleNode(elt);
      PushList(elt, [elt]);
    }

    /** Puts the whole list that starts with `elt` on the free list. */
    method PushList(elt: Element, ghost l: seq<Element>)
      requires Valid() && l != [] && l[0] == elt && Distinct(l) && NextLinked(l) && Nodes(l) !! free
      modifies this, elt`prev
      ensures Valid() && free == old(free) + Nodes(l)
    {
      elt.prev := elements;
      elements := elt;
      lists := [l] + lists;
      free := free + Nodes(l);
      assert lists[1..] == old(lists) && free - Nodes(l) == old(free);
      assert Lists(old(elements), old(lists), old(free));
    }
  }

  /** `l` is chained through `prev` and starts with null. */
  ghost predicate PrevLinked(l: seq<Element>)
    reads Nodes(l)`prev
  {
    forall i :: 0 <= i < |l| ==> l[i].prev == At(l, i - 1)
  }

  ghost function ContentsOf(l: seq<Element>): (s: seq<Entry>)
    reads Nodes(l)`indx, Nodes(l)`bits
  {
    if l == [] then [] else
      var e := l[|l| - 1];
      assert e in l && Nodes(l[..|l| - 1]) <= Nodes(l);
      ContentsOf(l[..|l| - 1]) + [Entry(e.indx, e.bits)]
  }

  lemma ContentsAt(l: seq<Element>)
    ensures |ContentsOf(l)| == |l| && forall i :: 0 <= i < |l| ==> ContentsOf(l)[i] == Entry(l[i].indx, l[i].bits)
  {
    if l != [] {
      ContentsAt(l[..|l| - 1]);
    }
  }

  lemma ContentsRemove(l: seq<Element>, p: nat)
    requires p < |l|
    ensures |ContentsOf(l)| == |l|
    ensures ContentsOf(l[..p] + l[p + 1..]) == ContentsOf(l)[..p] + ContentsOf(l)[p + 1..]
  {
    ContentsAt(l);
    ContentsAt(l[..p] + l[p + 1..]);
  }

  ghost predicate Increasing(l: seq<Element>)
    reads Nodes(l)`indx
  {
    forall i, j :: 0 <= i < j < |l| ==> l[i].indx < l[j].indx
  }

  lemma IncreasingContents(l: seq<Element>)
    ensures Increasing(l) <==> Ordered(ContentsOf(l))
  {
    ContentsAt(l);
    if Ordered(ContentsOf(l)) {
      forall i, j | 0 <= i < j < |l|
        ensures l[i].indx < l[j].indx
      {
        assert ContentsOf(l)[i].indx < ContentsOf(l)[j].indx;
      }
    }
  }

  lemma OrderedInsert(s: seq<Entry>, p: nat, e: Entry)
    requires Ordered(s) && p <= |s|
    requires p > 0 ==> s[p - 1].indx < e.indx
    requires p < |s| ==> e.indx < s[p].indx
    ensures Ordered(s[..p] + [e] + s[p..])
  {
  }

  /** What a miss at `c` says about the elements around it. */
  lemma Miss(l: seq<Element>, c: nat, t: nat)
    requires Increasing(l) && c < |l| && l[c].indx != t
    requires l[c].indx < t && c + 1 < |l| ==> l[c + 1].indx > t
    requires l[c].indx > t && c > 0 ==> l[c - 1].indx < t
    ensures forall i :: 0 <= i < |l| ==> l[i].indx != t
  {
  }

  lemma LinksAt(l: seq<Element>, p: nat)
    requires NextLinked(l) && PrevLinked(l) && p < |l|
    ensures l[p].next == At(l, p + 1) && l[p].prev == At(l, p - 1)
  {
  }

  lemma SingleNode(e: Element)
    requires e.next == null
    ensures NextLinked([e]) && Distinct([e]) && Nodes([e]) == {e}
  {
  }

  lemma RemoveNode(l: seq<Element>, p: nat)
    requires Distinct(l) && p < |l|
    ensures Distinct(l[..p] + l[p + 1..]) && Nodes(l[..p] + l[p + 1..]) == Nodes(l) - {l[p]} && l[p] in l
    ensures forall i :: 0 <= i < |l| && l[i] == l[p] ==> i == p
  {
    var r := l[..p] + l[p + 1..];
    assert forall i :: 0 <= i < |r| ==> r[i] == l[if i < p then i else i + 1];
    forall e | e in Nodes(l) - {l[p]}
      ensures e in r
    {
      var i :| 0 <= i < |l| && l[i] == e;
      assert r[if i < p then i else i - 1] == e;
    }
  }

  /** Takes `elt`, which is `l[p]`, out of the chain. */
  method Unlink(elt: Element, ghost l: seq<Element>, ghost p: nat)
    requires NextLinked(l) && PrevLinked(l) && Distinct(l) && p < |l| && l[p] == elt
    modifies Nodes(l)`next, Nodes(l)`prev
    ensures NextLinked(l[..p] + l[p + 1..]) && PrevLinked(l[..p] + l[p + 1..])
    ensures elt.next == old(elt.next) && elt.prev == old(elt.prev)
  {
    assert elt in l;
    var next, prev := elt.next, elt.prev;
    if prev != null {
      assert prev == l[p - 1];
      prev.next := next;
    }
    if next != null {
      assert next == l[p + 1];
      next.prev := prev;
    }
    ghost var r := l[..p] + l[p + 1..];
    forall i | 0 <= i < |r|
      ensures r[i].next == At(r, i + 1) && r[i].prev == At(r, i - 1)
    {
      assert r[i] == l[if i < p then i else i + 1];
    }
  }

  lemma InsertNode(l: seq<Element>, p: nat, e: Element)
    requires Distinct(l) && p <= |l| && e !in l
    ensures Distinct(l[..p] + [e] + l[p..]) && Nodes(l[..p] + [e] + l[p..]) == Nodes(l) + {e}
  {
    var r := l[..p] + [e] + l[p..];
    assert forall i :: 0 <= i < |r| ==> r[i] == if i < p then l[i] else if i == p then e else l[i - 1];
    forall x | x in Nodes(l) + {e}
      ensures x in r
    {
      if x == e {
        assert r[p] == e;
      } else {
        var i :| 0 <= i < |l| && l[i] == x;
        assert r[if i < p then i else i + 1] == x;
      }
    }
  }

  lemma AppendNode(l: seq<Element>, e: Element)
    requires Distinct(l) && e !in l
    ensures Distinct(l + [e]) && Nodes(l + [e]) == Nodes(l) + {e}
    ensures ContentsOf(l + [e]) == ContentsOf(l) + [Entry(e.indx, e.bits)]
  {
    assert (l + [e])[..|l|] == l;
  }

  lemma ContentsInsert(l: seq<Element>, p: nat, e: Element)
    requires p <= |l|
    ensures |ContentsOf(l)| == |l|
    ensures ContentsOf(l[..p] + [e] + l[p..]) == ContentsOf(l)[..p] + [Entry(e.indx, e.bits)] + ContentsOf(l)[p..]
  {
    hide ContentsOf;
    var r := l[..p] + [e] + l[p..];
    ContentsAt(l);
    ContentsAt(r);
    var s := ContentsOf(l)[..p] + [Entry(e.indx, e.bits)] + ContentsOf(l)[p..];
    assert |ContentsOf(r)| == |s|;
    forall k | 0 <= k < |r|
      ensures ContentsOf(r)[k] == s[k]
    {
      assert r[k] == if k < p then l[k] else if k == p then e else l[k - 1];
      assert s[k] == if k < p then ContentsOf(l)[k] else if k == p then Entry(e.indx, e.bits) else ContentsOf(l)[k - 1];
    }
  }

  /** Puts `node` between `prev` and `next`, that is in front of `l[p]`. */
  method Splice(node: Element, prev: Element?, next: Element?, ghost l: seq<Element>, ghost p: nat)
    requires NextLinked(l) && PrevLinked(l) && Distinct(l) && p <= |l| && node !in l
    requires prev == At(l, p - 1) && next == At(l, p)
    modifies node`next, node`prev, Nodes(l)`next, Nodes(l)`prev
    ensures NextLinked(l[..p] + [node] + l[p..]) && PrevLinked(l[..p] + [node] + l[p..])
  {
    hide NextLinked, PrevLinked;
    AllLinks(l);
    node.next := next;
    if next != null {
      next.prev := node;
    }
    if prev != null {
      prev.next := node;
    }
    node.prev := prev;
    assert forall i :: 0 <= i < |l| ==> l[i].next == if i == p - 1 then node else At(l, i + 1);
    assert forall i :: 0 <= i < |l| ==> l[i].prev == if i == p then node else At(l, i - 1);
    SpliceNext(l, p, node);
    SplicePrev(l, p, node);
  }

  lemma SpliceNext(l: seq<Element>, p: nat, node: Element)
    requires p <= |l| && node.next == At(l, p)
    requires forall i :: 0 <= i < |l| ==> l[i].next == if i == p - 1 then node else At(l, i + 1)
    ensures NextLinked(l[..p] + [node] + l[p..])
  {
    var r := l[..p] + [node] + l[p..];
    forall i | 0 <= i < |r|
      ensures r[i].next == At(r, i + 1)
    {
      assert r[i] == if i < p then l[i] else if i == p then node else l[i - 1];
    }
  }

  lemma SplicePrev(l: seq<Element>, p: nat, node: Element)
    requires p <= |l| && node.prev == At(l, p - 1)
    requires forall i :: 0 <= i < |l| ==> l[i].prev == if i == p then node else At(l, i - 1)
    ensures PrevLinked(l[..p] + [node] + l[p..])
  {
    var r := l[..p] + [node] + l[p..];
    forall i | 0 <= i < |r|
      ensures r[i].prev == At(r, i - 1)
    {
      assert r[i] == if i < p then l[i] else if i == p then node else l[i - 1];
    }
  }

  lemma AllLinks(l: seq<Element>)
    requires NextLinked(l) && PrevLinked(l)
    ensures forall i :: 0 <= i < |l| ==> l[i].next == At(l, i + 1) && l[i].prev == At(l, i - 1)
  {
  }

  /** Chains `node` behind the last element of `l`. */
  method ChainBehind(node: Element, last: Element?, ghost l: seq<Element>)
    requires NextLinked(l) && PrevLinked(l) && Distinct(l) && node !in l && last == At(l, |l| - 1)
    modifies node`next, node`prev, Nodes(l)`next
    ensures NextLinked(l + [node]) && PrevLinked(l + [node])
  {
    node.prev := last;
    node.next := null;
    if last != null {
      last.next := node;
    }
    ghost var r := l + [node];
    forall i | 0 <= i < |r|
      ensures r[i].next == At(r, i + 1) && r[i].prev == At(r, i - 1)
    {
      assert r[i] == if i < |l| then l[i] else node;
      assert i < |l| ==> l[i].prev == At(l, i - 1);
      assert i < |l| - 1 ==> l[i].next == At(l, i + 1) && l[i] != last;
    }
  }

  /** Ends the chain `l` before `l[p]`, whose predecessor is `prev`. */
  method CutAfter(prev: Element?, ghost l: seq<Element>, ghost p: nat)
    requires NextLinked(l) && PrevLinked(l) && Distinct(l) && p < |l| && prev == At(l, p - 1)
    modifies (if prev == null then {} else {prev})`next
    ensures NextLinked(l[..p]) && PrevLinked(l[..p]) && NextLinked(l[p..])
  {
    if prev != null {
      prev.next := null;
    }
    assert forall i :: 0 <= i < |l| - p ==> l[p..][i] == l[p + i];
  }

  lemma SplitNodes(l: seq<Element>, p: nat)
    requires Distinct(l) && p <= |l|
    ensures Distinct(l[..p]) && Distinct(l[p..]) && Nodes(l[..p]) !! Nodes(l[p..]) && Nodes(l[..p]) + Nodes(l[p..]) == Nodes(l)
  {
    assert l == l[..p] + l[p..];
  }

  lemma ContentsPrefix(l: seq<Element>, p: nat)
    requires p <= |l|
    ensures |ContentsOf(l)| == |l| && ContentsOf(l[..p]) == ContentsOf(l)[..p]
  {
    ContentsAt(l);
    ContentsAt(l[..p]);
  }

  class Bitmap {
    var first: Element?
    var current: Element?
    var indx: nat
    const obstack: Obstack
    ghost var elts: seq<Element>

    /** The elements form a doubly linked list apart from the free list. */
    ghost predicate Linked()
      reads `first, `elts, Nodes(elts)`next, Nodes(elts)`prev, obstack`elements, obstack`lists, obstack`free, obstack.free`next, obstack.free`prev
    {
      && first == At(elts, 0) && NextLinked(elts) && PrevLinked(elts) && Distinct(elts)
      && obstack.Valid() && Nodes(elts) !! obstack.free
    }

    ghost function Contents(): seq<Entry>
      reads `elts, Nodes(elts)`indx, Nodes(elts)`bits
    {
      ContentsOf(elts)
    }

    /** The elements this bitmap holds or may get from its free list. */
    ghost function Owned(): set<Element>
      reads `elts, obstack`free
    {
      Nodes(elts) + obstack.free
    }

    /** The list as its readers see it. */
    ghost predicate Readable()
      reads `first, `elts, Nodes(elts)`next
    {
      first == At(elts, 0) && NextLinked(elts)
    }

    /** Links `node` in behind the last element, or as the only one, where the cursor then is. */
    method Append(node: Element, last: Element?)
      requires Linked() && last == At(elts, |elts| - 1) && node !in elts && node !in obstack.free
      modifies this`first, this`current, this`indx, this`elts, node`next, node`prev, Nodes(elts)`next
      ensures Linked() && elts == old(elts) + [node] && Contents() == old(Contents()) + [Entry(node.indx, node.bits)]
      ensures if old(elts) == [] then current == node && indx == node.indx else current == old(current) && indx == old(indx)
    {
      hide Lists, Distinct, ContentsOf, NextLinked, PrevLinked;
      AppendNode(elts, node);
      if last == null {
        first, current, indx := node, node, node.indx;
      }
      ChainBehind(node, last, elts);
      elts := elts + [node];
    }

    /** The cursor is null for the empty list, else it is on an element. */
    ghost predicate CursorIn()
      reads `elts, `current
    {
      && (current == null <==> elts == [])
      && (current != null ==> current in elts)
    }

    /** In addition, `indx` is the index of the element under the cursor. */
    ghost predicate CursorOk()
      reads `elts, `current, `indx, Nodes(elts)`indx
    {
      CursorIn() && (current != null ==> indx == current.indx)
    }

    /** Whatever the operations of this file may rely on between calls. */
    ghost predicate Valid()
      reads `first, `current, `indx, `elts, Nodes(elts), obstack`elements, obstack`lists, obstack`free, obstack.free`next, obstack.free`prev
    {
      Linked() && CursorOk() && Normal(Contents())
    }

    constructor (o: Obstack)
      requires o.Valid()
      ensures Valid() && elts == [] && obstack == o
    {
      first, current, indx, obstack, elts := null, null, 0, o, [];
    }

    /** Takes `elt`, which is `elts[p]`, out of the list. */
    method Detach(elt: Element, ghost p: nat)
      requires Linked() && p < |elts| && elts[p] == elt
      modifies this`first, this`elts, Nodes(elts)`next, Nodes(elts)`prev
      ensures Linked() && elts == old(elts)[..p] + old(elts)[p + 1..]
      ensures Nodes(elts) == old(Nodes(elts)) - {elt} && elt !in obstack.free && elt in old(Nodes(elts))
      ensures |old(Contents())| == |old(elts)| && Contents() == old(Contents())[..p] + old(Contents())[p + 1..]
    {
      hide Lists, NextLinked, PrevLinked, Distinct, ContentsOf;
      RemoveNode(elts, p);
      LinksAt(elts, p);
      ContentsRemove(elts, p);
      var next := elt.next;
      Unlink(elt, elts, p);
      elts := elts[..p] + elts[p + 1..];
      if first == elt {
        first := next;
      }
    }

    /** Unlinks `elt`, which is `elts[p]`, and puts it on the free list. */
    method ElementFree(elt: Element, ghost p: nat)
      requires Linked() && p < |elts| && elts[p] == elt
      modifies this, obstack, Nodes(elts)`next, Nodes(elts)`prev
      ensures Linked() && elts == old(elts)[..p] + old(elts)[p + 1..]
      ensures |old(Contents())| == |old(elts)| && Contents() == old(Contents())[..p] + old(Contents())[p + 1..]
      ensures Owned() == old(Owned())
      ensures current == if old(current) != elt then old(current) else if p < |elts| then elts[p] else At(elts, p - 1)
      ensures indx == if old(current) != elt then old(indx) else if current == null then 0 else current.indx
    {
      hide Linked, ContentsOf;
      ElementLinks(p);
      var next, prev := elt.next, elt.prev;
      Detach(elt, p);
      if current == elt {
        current := if next != null then next else prev;
        indx := if current != null then current.indx else 0;
      }
      ghost var nodes, s := Nodes(elts), Contents();
      FreeDetached(elt);
    }

    lemma ElementLinks(p: nat)
      requires Linked() && p < |elts|
      ensures elts[p].next == At(elts, p + 1) && elts[p].prev == At(elts, p - 1)
    {
    }

    /** Puts an element that is in no list on the free list. */
    method FreeDetached(elt: Element)
      requires Linked() && elt !in elts && elt !in obstack.free
      modifies obstack, elt`next, elt`prev
      ensures Linked() && Contents() == old(Contents()) && obstack.free == old(obstack.free) + {elt}
    {
      hide Lists, NextLinked, PrevLinked, Distinct, ContentsOf;
      obstack.ElemToFreelist(elt);
    }

    /** A zero element with index `i` from the free list. */
    method Allocate(i: nat) returns (node: Element)
      requires Linked()
      modifies obstack, obstack.free
      ensures Linked() && Contents() == old(Contents())
      ensures node.indx == i && node.bits == ZERO_WORDS
      ensures node in old(obstack.free) || fresh(node)
      ensures node !in elts && obstack.free == old(obstack.free) - {node}
    {
      hide Lists, NextLinked, PrevLinked, Distinct, ContentsOf;
      node := obstack.Allocate();
      node.indx := i;
    }

    /** Inserts a fresh or recycled zero element with index `i` after `elt`, or at the start if `elt` is null. */
    method InsertAfter(elt: Element?, i: nat, ghost p: nat) returns (node: Element)
      requires Linked() && CursorIn() && p <= |elts| && elt == At(elts, p - 1)
      modifies this, obstack, obstack.free, Nodes(elts)`next, Nodes(elts)`prev
      ensures Linked() && elts == old(elts)[..p] + [node] + old(elts)[p..]
      ensures |old(Contents())| == |old(elts)|
      ensures Contents() == old(Contents())[..p] + [Entry(i, ZERO_WORDS)] + old(Contents())[p..]
      ensures node in old(obstack.free) || fresh(node)
      ensures node !in old(elts) && obstack.free == old(obstack.free) - {node} && Nodes(elts) == old(Nodes(elts)) + {node}
      ensures CursorIn() && if old(current) == null then current == node && indx == i else current == old(current) && indx == old(indx)
    {
      hide Lists, NextLinked, PrevLinked, Distinct, ContentsOf;
      assert elt != null ==> current != null;
      node := Allocate(i);
      SpliceIn(node, elt, p);
      if elt == null && current == null {
        current, indx := node, i;
      }
    }

    /** Links `node` in after `elt`, or at the start if `elt` is null. */
    method SpliceIn(node: Element, elt: Element?, ghost p: nat)
      requires Linked() && p <= |elts| && elt == At(elts, p - 1) && node !in elts && node !in obstack.free
      modifies this`first, this`elts, node`next, node`prev, Nodes(elts)`next, Nodes(elts)`prev
      ensures Linked() && elts == old(elts)[..p] + [node] + old(elts)[p..]
      ensures |old(Contents())| == |old(elts)| && Nodes(elts) == old(Nodes(elts)) + {node}
      ensures Contents() == old(Contents())[..p] + [Entry(node.indx, node.bits)] + old(Contents())[p..]
    {
      hide Lists, NextLinked, PrevLinked, Distinct, ContentsOf;
      ghost var l := elts;
      if p > 0 {
        LinksAt(l, p - 1);
      }
      InsertNode(l, p, node);
      ContentsInsert(l, p, node);
      Splice(node, elt, if elt == null then first else elt.next, l, p);
      elts := l[..p] + [node] + l[p..];
      if elt == null {
        first := node;
      }
    }

    /** Ends the list before `elt`, which is `elts[p]`. */
    method Truncate(elt: Element, prev: Element?, ghost p: nat)
      requires Linked() && p < |elts| && elt == elts[p] && prev == At(elts, p - 1)
      modifies this`first, this`elts, Nodes(elts)`next
      ensures Linked() && elts == old(elts)[..p] && NextLinked(old(elts)[p..]) && Distinct(old(elts)[p..])
      ensures Nodes(old(elts)[p..]) !! obstack.free && Nodes(old(elts)[p..]) !! Nodes(elts)
      ensures Nodes(old(elts)[p..]) + Nodes(elts) == old(Nodes(elts))
      ensures |old(Contents())| == |old(elts)| && Contents() == old(Contents())[..p]
    {
      hide Lists, NextLinked, PrevLinked, Distinct, ContentsOf;
      ghost var l := elts;
      ContentsPrefix(l, p);
      SplitNodes(l, p);
      CutAfter(prev, l, p);
      elts := l[..p];
      if prev == null {
        first := null;
      }
    }

    /** Puts a chain that is in no list on the free list. */
    method FreeChain(elt: Element, ghost l: seq<Element>)
      requires Linked() && l != [] && l[0] == elt && Distinct(l) && NextLinked(l) && Nodes(l) !! obstack.free && Nodes(l) !! Nodes(elts)
      modifies obstack, elt`prev
      ensures Linked() && Contents() == old(Contents()) && obstack.free == old(obstack.free) + Nodes(l)
    {
      hide Lists, NextLinked, PrevLinked, Distinct, ContentsOf;
      obstack.PushList(elt, l);
    }

    /** Removes `elt`, which is `elts[p]` or null at the end, and all elements after it. */
    method ClearFrom(elt: Element?, ghost p: nat)
      requires Linked() && p <= |elts| && elt == At(elts, p)
      requires 0 < p < |elts| ==> current != null
      modifies this, obstack, Nodes(elts)`next, Nodes(elts)`prev
      ensures Linked() && elts == old(elts)[..p]
      ensures |old(Contents())| == |old(elts)| && Contents() == old(Contents())[..p]
      ensures Owned() == old(Owned())
      ensures p == |old(elts)| ==> current == old(current) && indx == old(indx)
      ensures p < |old(elts)| && p == 0 ==> current == null
      ensures 0 < p < |old(elts)| ==>
        if old(current.indx) > old(elts[p - 1].indx)
        then current == old(elts)[p - 1] && indx == old(elts[p - 1].indx)
        else current == old(current) && indx == old(indx)
    {
      hide Linked, NextLinked, PrevLinked, Distinct, ContentsOf;
      ghost var l := elts;
      ContentsPrefix(l, p);
      if elt == null {
        assert l[..p] == l;
        return;
      }
      ElementLinks(p);
      var prev := elt.prev;
      Truncate(elt, prev, p);
      ghost var nodes, s := Nodes(elts), Contents();
      if prev != null {
        if current.indx > prev.indx {
          current, indx := prev, prev.indx;
        }
      } else {
        current, indx := null, 0;
      }
      assert Linked() && Contents() == s;
      FreeChain(elt, l[p..]);
    }

    /** Where the cursor stands. */
    ghost predicate CursorAt(c: nat)
      reads `elts, `current, `indx, Nodes(elts)`indx
    {
      c < |elts| && current == elts[c] && indx == elts[c].indx
    }

    /**
     * The element that holds `bit`, or null; `c` is where the cursor ends up: on the element, or next to
     * the place where it would be.
     */
    method FindBit(bit: nat) returns (element: Element?, ghost c: nat)
      requires Linked() && CursorOk() && Ordered(Contents())
      modifies this`current, this`indx
      ensures Linked() && CursorOk() && Contents() == old(Contents())
      ensures elts != [] ==> CursorAt(c)
      ensures element != null ==> c < |elts| && element == elts[c] && element.indx == bit / ALL_BITS
      ensures element == null ==> NearestTo(c, bit / ALL_BITS) && forall i :: 0 <= i < |elts| ==> elts[i].indx != bit / ALL_BITS
    {
      hide Linked, ContentsOf, Ordered, CursorOk;
      ghost var nodes, free, s := Nodes(elts), obstack.free, Contents();
      c := CursorIndex();
      var t := bit / ALL_BITS;
      element := current;
      if current != null && indx != t {
        element, c := Search(t, c);
        assert Contents() == s && Linked();
        current, indx := element, element.indx;
        CursorOn(c);
        if element.indx != t {
          Miss(elts, c, t);
          element := null;
        }
      }
    }

    lemma CursorIndex() returns (c: nat)
      requires CursorOk() && Ordered(Contents())
      ensures current != null ==> CursorAt(c)
      ensures (current == null <==> elts == []) && Increasing(elts)
    {
      IncreasingContents(elts);
      c := 0;
      if current != null {
        c :| 0 <= c < |elts| && elts[c] == current;
      }
    }

    /** The element nearest to where index `t` belongs, coming from the cursor or, if that is closer, from the start. */
    method Search(t: nat, ghost c0: nat) returns (element: Element, ghost c: nat)
      requires Linked() && CursorAt(c0) && Increasing(elts) && indx != t
      ensures c < |elts| && element == elts[c]
      ensures element.indx < t && c + 1 < |elts| ==> elts[c + 1].indx > t
      ensures element.indx > t && c > 0 ==> elts[c - 1].indx < t
    {
      hide Lists, Distinct, NextLinked, PrevLinked;
      if indx < t {
        element, c := SearchForward(current, c0, t);
      } else if indx / 2 < t {
        element, c := SearchBackward(current, c0, t);
      } else {
        element, c := SearchForward(first, 0, t);
      }
    }

    /** From `start` on, the first element whose index is at least `t`, or the last element. */
    method SearchForward(start: Element, ghost c0: nat, t: nat) returns (element: Element, ghost c: nat)
      requires NextLinked(elts) && PrevLinked(elts) && c0 < |elts| && start == elts[c0]
      ensures c0 <= c < |elts| && element == elts[c]
      ensures c + 1 < |elts| ==> element.indx >= t
      ensures c == c0 || elts[c - 1].indx < t
    {
      hide NextLinked, PrevLinked;
      element, c := start, c0;
      LinksAt(elts, c);
      while element.next != null && element.indx < t
        invariant NextLinked(elts) && PrevLinked(elts)
        invariant c0 <= c < |elts| && element == elts[c] && element.next == At(elts, c + 1)
        invariant c == c0 || elts[c - 1].indx < t
        decreases |elts| - c
      {
        element := element.next;
        c := c + 1;
        LinksAt(elts, c);
      }
    }

    /** From `start` back, the first element whose index is at most `t`, or the first element. */
    method SearchBackward(start: Element, ghost c0: nat, t: nat) returns (element: Element, ghost c: nat)
      requires NextLinked(elts) && PrevLinked(elts) && c0 < |elts| && start == elts[c0]
      ensures c <= c0 && element == elts[c]
      ensures c > 0 ==> element.indx <= t
      ensures c == c0 || elts[c + 1].indx > t
    {
      hide NextLinked, PrevLinked;
      element, c := start, c0;
      LinksAt(elts, c);
      while element.prev != null && element.indx > t
        invariant NextLinked(elts) && PrevLinked(elts)
        invariant 0 <= c <= c0 && element == elts[c] && element.prev == At(elts, c - 1)
        invariant c == c0 || elts[c + 1].indx > t
        decreases c
      {
        element := element.prev;
        c := c - 1;
        LinksAt(elts, c);
      }
    }

    /** No element with index `t`; an element with it would stand directly before or after `elts[c]`. */
    ghost predicate NearestTo(c: nat, t: nat)
      reads `elts, Nodes(elts)`indx
    {
      elts != [] ==>
        && c < |elts|
        && (elts[c].indx < t ==> c + 1 < |elts| ==> elts[c + 1].indx > t)
        && (elts[c].indx > t ==> c > 0 ==> elts[c - 1].indx < t)
    }

    /** Puts `element` where its index belongs, searching from the cursor. */
    method ElementLink(element: Element) returns (ghost p: nat)
      requires Linked() && CursorOk() && Ordered(Contents())
      requires element !in elts && element !in obstack.free && forall i :: 0 <= i < |elts| ==> elts[i].indx != element.indx
      modifies this, element`next, element`prev, Nodes(elts)`next, Nodes(elts)`prev
      ensures Linked() && p <= |old(elts)| && elts == old(elts)[..p] + [element] + old(elts)[p..]
      ensures |old(Contents())| == |old(elts)|
      ensures Contents() == old(Contents())[..p] + [Entry(element.indx, element.bits)] + old(Contents())[p..]
      ensures Ordered(Contents()) && CursorOk() && current == element
      ensures Nodes(elts) == old(Nodes(elts)) + {element}
    {
      hide Linked, ContentsOf, Ordered, CursorOk;
      ghost var nodes, free, s := Nodes(elts), obstack.free, Contents();
      var prev;
      prev, p := LinkPlace(element.indx);
      OrderedInsert(s, p, Entry(element.indx, element.bits));
      assert Contents() == s && Linked();
      current, indx := element, element.indx;
      assert Contents() == s && Linked();
      SpliceIn(element, prev, p);
      CursorOn(p);
    }

    lemma CursorOn(p: nat)
      requires p < |elts| && current == elts[p] && indx == current.indx
      ensures CursorOk()
    {
    }

    /** The element after which one with index `t` belongs, or null for the start; searches from the cursor. */
    method LinkPlace(t: nat) returns (prev: Element?, ghost p: nat)
      requires Linked() && CursorOk() && Ordered(Contents())
      requires forall i :: 0 <= i < |elts| ==> elts[i].indx != t
      ensures p <= |elts| == |Contents()| && prev == At(elts, p - 1)
      ensures p > 0 ==> Contents()[p - 1].indx < t
      ensures p < |elts| ==> t < Contents()[p].indx
    {
      hide Lists, Distinct, ContentsOf, NextLinked, PrevLinked, Ordered;
      ContentsAt(elts);
      IncreasingContents(elts);
      prev, p := null, 0;
      if first == null {
        return;
      }
      ghost var c: int :| 0 <= c < |elts| && elts[c] == current;
      var ptr := current;
      LinksAt(elts, c);
      if t < indx {
        while ptr.prev != null && ptr.prev.indx > t
          invariant NextLinked(elts) && PrevLinked(elts)
          invariant 0 <= c < |elts| && ptr == elts[c] && ptr.indx > t && ptr.prev == At(elts, c - 1)
          decreases c
        {
          ptr := ptr.prev;
          c := c - 1;
          LinksAt(elts, c);
        }
        prev, p := ptr.prev, c;
      } else {
        while ptr.next != null && ptr.next.indx < t
          invariant NextLinked(elts) && PrevLinked(elts)
          invariant 0 <= c < |elts| && ptr == elts[c] && ptr.indx < t && ptr.next == At(elts, c + 1)
          decreases |elts| - c
        {
          ptr := ptr.next;
          c := c + 1;
          LinksAt(elts, c);
        }
        prev, p := ptr, c + 1;
      }
    }

    /** Clears the bitmap. */
    method Clear()
      requires Linked()
      modifies this, obstack, Nodes(elts)
      ensures Linked() && elts == [] && Contents() == [] && Owned() == old(Owned())
      ensures old(elts) != [] || old(current) == null ==> current == null
    {
      hide Lists, NextLinked, PrevLinked, Distinct, ContentsOf;
      if first != null {
        ClearFrom(first, 0);
      }
      EmptyContents(elts);
    }
  }

  lemma EmptyContents(l: seq<Element>)
    requires l == []
    ensures ContentsOf(l) == []
  {
  }
}
