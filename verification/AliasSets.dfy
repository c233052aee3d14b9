/** The table of alias sets and the questions asked of it. */
module AliasSets {
  import opened Options

  /** What is known of one alias set: all its descendants but zero, and whether zero is one. */
  datatype Entry = Entry(children: set<nat>, hasZeroChild: bool)

  // ---- descent ----

  type Edge = (nat, nat)

  /** `p` goes from `a` to `b` along recorded superset-subset pairs, in at least one step. */
  ghost predicate Descent(edges: set<Edge>, p: seq<nat>, a: nat, b: nat) {
    && |p| >= 2 && p[0] == a && p[|p| - 1] == b
    && forall i :: 0 <= i < |p| - 1 ==> (p[i], p[i + 1]) in edges
  }

  /** `b` is a subset of `a`, a subset of a subset of `a`, and so on. */
  ghost predicate Descends(edges: set<Edge>, a: nat, b: nat) {
    exists p :: Descent(edges, p, a, b)
  }

  lemma DescendsEdge(edges: set<Edge>, a: nat, b: nat)
    requires (a, b) in edges
    ensures Descends(edges, a, b)
  {
    assert Descent(edges, [a, b], a, b);
  }

  lemma DescendsMore(edges: set<Edge>, more: set<Edge>, a: nat, b: nat)
    requires Descends(edges, a, b) && edges <= more
    ensures Descends(more, a, b)
  {
    var p :| Descent(edges, p, a, b);
    assert Descent(more, p, a, b);
  }

  lemma DescendsTrans(edges: set<Edge>, a: nat, b: nat, c: nat)
    requires Descends(edges, a, b) && Descends(edges, b, c)
    ensures Descends(edges, a, c)
  {
    var p :| Descent(edges, p, a, b);
    var q :| Descent(edges, q, b, c);
    var r := p + q[1..];
    forall i | 0 <= i < |r| - 1
      ensures (r[i], r[i + 1]) in edges
    {
      if i < |p| - 1 {
        assert r[i] == p[i] && r[i + 1] == p[i + 1];
      } else {
        var k := i - (|p| - 1);
        assert r[i] == q[k] && r[i + 1] == q[k + 1];
      }
    }
    assert Descent(edges, r, a, c);
  }

  /** What one new pair adds to the descent. */
  lemma {:induction false} NewPath(edges: set<Edge>, sup: nat, sub: nat, p: seq<nat>, a: nat, b: nat)
    requires Descent(edges + {(sup, sub)}, p, a, b)
    ensures Descends(edges, a, b) || ((a == sup || Descends(edges, a, sup)) && (b == sub || Descends(edges, sub, b)))
    decreases |p|
  {
    assert (p[0], p[1]) in edges + {(sup, sub)};
    if (a, p[1]) in edges {
      DescendsEdge(edges, a, p[1]);
    }
    if |p| > 2 {
      var q := p[1..];
      forall i | 0 <= i < |q| - 1
        ensures (q[i], q[i + 1]) in edges + {(sup, sub)}
      {
        assert q[i] == p[i + 1] && q[i + 1] == p[i + 2];
      }
      NewPath(edges, sup, sub, q, p[1], b);
      if (a, p[1]) in edges {
        if Descends(edges, p[1], b) {
          DescendsTrans(edges, a, p[1], b);
        }
        if Descends(edges, p[1], sup) {
          DescendsTrans(edges, a, p[1], sup);
        }
      }
    }
  }

  lemma NewDescent(edges: set<Edge>, sup: nat, sub: nat, a: nat, b: nat)
    ensures Descends(edges + {(sup, sub)}, a, b) <==>
      Descends(edges, a, b) || ((a == sup || Descends(edges, a, sup)) && (b == sub || Descends(edges, sub, b)))
  {
    var more := edges + {(sup, sub)};
    if Descends(more, a, b) {
      var p :| Descent(more, p, a, b);
      NewPath(edges, sup, sub, p, a, b);
    }
    DescendsEdge(more, sup, sub);
    if Descends(edges, a, b) {
      DescendsMore(edges, more, a, b);
    }
    if (a == sup || Descends(edges, a, sup)) && (b == sub || Descends(edges, sub, b)) {
      if a != sup {
        DescendsMore(edges, more, a, sup);
        DescendsTrans(more, a, sup, sub);
      }
      if b != sub {
        DescendsMore(edges, more, sub, b);
        DescendsTrans(more, a, sub, b);
      }
    }
  }

  // ---- the table as a value ----

  function Children(sets: seq<Option<Entry>>, s: nat): set<nat> {
    if s < |sets| && sets[s].Some? then sets[s].value.children else {}
  }

  predicate HasZero(sets: seq<Option<Entry>>, s: nat) {
    s < |sets| && sets[s].Some? && sets[s].value.hasZeroChild
  }

  /** What recording a pair makes of the entries. */
  function Recorded(sets: seq<Option<Entry>>, sup: nat, sub: nat): seq<Option<Entry>>
    requires sup < |sets|
  {
    if sup == sub then sets
    else if sub == 0 then sets[sup := Some(Entry(Children(sets, sup), true))]
    else sets[sup := Some(Entry(Children(sets, sup) + Children(sets, sub) + {sub}, HasZero(sets, sup) || HasZero(sets, sub)))]
  }

  /** The entry of `s` has exactly its descendants. */
  ghost predicate ExactAt(sets: seq<Option<Entry>>, edges: set<Edge>, s: nat) {
    && (forall t: nat :: t in Children(sets, s) <==> t != 0 && Descends(edges, s, t))
    && (HasZero(sets, s) <==> Descends(edges, s, 0))
  }

  /** Every entry has exactly the descendants of its set. */
  ghost predicate Exact(sets: seq<Option<Entry>>, edges: set<Edge>) {
    forall s: nat :: ExactAt(sets, edges, s)
  }

  /** The entry of `s` already has what `sub` would bring in. */
  predicate Knows(sets: seq<Option<Entry>>, s: nat, sub: nat) {
    if sub == 0 then HasZero(sets, s)
    else sub in Children(sets, s) && Children(sets, sub) <= Children(sets, s) && (HasZero(sets, sub) ==> HasZero(sets, s))
  }

  /** A descendant of an exactly known set is in its entry, zero as its flag. */
  predicate In(sets: seq<Option<Entry>>, s: nat, t: nat) {
    if t == 0 then HasZero(sets, s) else t in Children(sets, s)
  }

  lemma ExactIn(sets: seq<Option<Entry>>, edges: set<Edge>, s: nat, t: nat)
    requires ExactAt(sets, edges, s)
    ensures In(sets, s, t) <==> Descends(edges, s, t)
  {
    hide Descends;
  }

  lemma FromIn(sets: seq<Option<Entry>>, edges: set<Edge>, s: nat)
    requires 0 !in Children(sets, s) && forall t: nat :: In(sets, s, t) <==> Descends(edges, s, t)
    ensures ExactAt(sets, edges, s)
  {
    hide Descends;
    assert In(sets, s, 0) <==> Descends(edges, s, 0);
    forall t: nat
      ensures t in Children(sets, s) <==> t != 0 && Descends(edges, s, t)
    {
      assert In(sets, s, t) <==> Descends(edges, s, t);
    }
  }

  lemma RecordedIn(sets: seq<Option<Entry>>, sup: nat, sub: nat, s: nat, t: nat)
    requires sup < |sets| && sup != sub
    requires sub == 0 ==> Children(sets, 0) == {} && !HasZero(sets, 0)
    ensures In(Recorded(sets, sup, sub), s, t) <==> In(sets, s, t) || (s == sup && (t == sub || In(sets, sub, t)))
  {
  }

  /** The superset of a new pair is exact afterwards. */
  lemma SupersetExact(sets: seq<Option<Entry>>, edges: set<Edge>, sup: nat, sub: nat)
    requires sup < |sets| && sup != sub && sup != 0 && ExactAt(sets, edges, sup) && ExactAt(sets, edges, sub)
    requires sub == 0 ==> Children(sets, 0) == {} && !HasZero(sets, 0)
    ensures ExactAt(Recorded(sets, sup, sub), edges + {(sup, sub)}, sup)
  {
    hide Descends, ExactAt;
    forall t: nat
      ensures In(Recorded(sets, sup, sub), sup, t) <==> Descends(edges + {(sup, sub)}, sup, t)
    {
      RecordedIn(sets, sup, sub, sup, t);
      NewDescent(edges, sup, sub, sup, t);
      ExactIn(sets, edges, sup, t);
      ExactIn(sets, edges, sub, t);
    }
    NoZeroChild(sets, edges, sup);
    NoZeroChild(sets, edges, sub);
    FromIn(Recorded(sets, sup, sub), edges + {(sup, sub)}, sup);
  }

  lemma NoZeroChild(sets: seq<Option<Entry>>, edges: set<Edge>, s: nat)
    requires ExactAt(sets, edges, s)
    ensures 0 !in Children(sets, s)
  {
    hide Descends;
  }

  /** Any other set is exact afterwards exactly if it does not contain the superset, or knew the subset already. */
  lemma OtherExactIff(sets: seq<Option<Entry>>, edges: set<Edge>, sup: nat, sub: nat, s: nat)
    requires sup < |sets| && sup != sub && sup != 0 && s != sup && Exact(sets, edges)
    requires sub == 0 ==> Children(sets, 0) == {} && !HasZero(sets, 0)
    ensures ExactAt(Recorded(sets, sup, sub), edges + {(sup, sub)}, s) <==> sup !in Children(sets, s) || Knows(sets, s, sub)
  {
    hide Descends, ExactAt, In;
    var more := edges + {(sup, sub)};
    forall t: nat
      ensures In(Recorded(sets, sup, sub), s, t) <==> In(sets, s, t)
      ensures Descends(more, s, t) <==> In(sets, s, t) || (In(sets, s, sup) && (t == sub || In(sets, sub, t)))
    {
      RecordedIn(sets, sup, sub, s, t);
      NewDescent(edges, sup, sub, s, t);
      ExactIn(sets, edges, s, t);
      ExactIn(sets, edges, s, sup);
      ExactIn(sets, edges, sub, t);
    }
    KnowsIn(sets, edges, s, sub);
    InSup(sets, s, sup);
    NoZeroChild(sets, edges, s);
    if ExactAt(Recorded(sets, sup, sub), more, s) {
      forall t: nat | In(sets, s, sup) && (t == sub || In(sets, sub, t))
        ensures In(sets, s, t)
      {
        ExactIn(Recorded(sets, sup, sub), more, s, t);
      }
    } else if sup !in Children(sets, s) || Knows(sets, s, sub) {
      FromIn(Recorded(sets, sup, sub), more, s);
    }
  }

  lemma InSup(sets: seq<Option<Entry>>, s: nat, sup: nat)
    requires sup != 0
    ensures In(sets, s, sup) <==> sup in Children(sets, s)
  {
  }

  lemma KnowsIn(sets: seq<Option<Entry>>, edges: set<Edge>, s: nat, sub: nat)
    requires ExactAt(sets, edges, sub) && (sub == 0 ==> Children(sets, 0) == {} && !HasZero(sets, 0))
    ensures Knows(sets, s, sub) <==> forall t: nat :: t == sub || In(sets, sub, t) ==> In(sets, s, t)
  {
    hide Descends;
    if forall t: nat :: t == sub || In(sets, sub, t) ==> In(sets, s, t) {
      assert In(sets, s, sub);
      assert In(sets, sub, 0) ==> In(sets, s, 0);
      forall t | t in Children(sets, sub)
        ensures t in Children(sets, s)
      {
        assert In(sets, sub, t);
      }
    }
  }

  /** Recording one more pair keeps the table exact exactly if no other set that contains the superset misses something. */
  lemma RecordExactIff(sets: seq<Option<Entry>>, edges: set<Edge>, sup: nat, sub: nat)
    requires sup < |sets| && sup != sub && sup != 0 && Exact(sets, edges)
    requires Children(sets, 0) == {} && !HasZero(sets, 0)
    ensures Exact(Recorded(sets, sup, sub), edges + {(sup, sub)}) <==>
      forall s: nat :: s != sup && sup in Children(sets, s) ==> Knows(sets, s, sub)
  {
    hide ExactAt, Knows;
    SupersetExact(sets, edges, sup, sub);
    forall s: nat | s != sup
      ensures ExactAt(Recorded(sets, sup, sub), edges + {(sup, sub)}, s) <==> sup !in Children(sets, s) || Knows(sets, s, sub)
    {
      OtherExactIff(sets, edges, sup, sub, s);
    }
  }

  // ---- a whole series of recordings ----

  /** The pairs recorded one after the other into a table of `n` empty places. */
  function Built(n: nat, pairs: seq<Edge>): (sets: seq<Option<Entry>>)
    requires forall i :: 0 <= i < |pairs| ==> 0 < pairs[i].0 < n
    ensures |sets| == n
  {
    if pairs == [] then seq(n, _ => None)
    else
      var (sup, sub) := pairs[|pairs| - 1];
      Recorded(Built(n, pairs[..|pairs| - 1]), sup, sub)
  }

  /** The pairs that mean something: a set is not recorded as a subset of itself. */
  function Edges(pairs: seq<Edge>): set<Edge> {
    set i | 0 <= i < |pairs| && pairs[i].0 != pairs[i].1 :: pairs[i]
  }

  /** No set gains a subset after it has been recorded as one. */
  ghost predicate BottomUp(pairs: seq<Edge>) {
    forall i, j :: 0 <= i < j < |pairs| && pairs[j].0 != pairs[j].1 && pairs[i].0 != pairs[i].1 ==> pairs[j].0 != pairs[i].1
  }

  lemma LastIsSubset(edges: set<Edge>, a: nat, b: nat)
    requires Descends(edges, a, b)
    ensures exists c :: (c, b) in edges
  {
    var p :| Descent(edges, p, a, b);
    assert (p[|p| - 2], p[|p| - 1]) in edges;
  }

  lemma FirstIsSuperset(edges: set<Edge>, a: nat, b: nat)
    requires Descends(edges, a, b)
    ensures exists c :: (a, c) in edges
  {
    var p :| Descent(edges, p, a, b);
    assert (p[0], p[1]) in edges;
  }

  lemma EdgesSnoc(pairs: seq<Edge>)
    requires pairs != []
    ensures
      var front, last := pairs[..|pairs| - 1], pairs[|pairs| - 1];
      Edges(pairs) == Edges(front) + if last.0 != last.1 then {last} else {}
  {
    var front, last := pairs[..|pairs| - 1], pairs[|pairs| - 1];
    forall e | e in Edges(pairs)
      ensures e in Edges(front) + if last.0 != last.1 then {last} else {}
    {
      var i :| 0 <= i < |pairs| && pairs[i].0 != pairs[i].1 && pairs[i] == e;
      if i < |front| {
        assert front[i] == e;
      }
    }
    forall e | e in Edges(front)
      ensures e in Edges(pairs)
    {
      var i :| 0 <= i < |front| && front[i].0 != front[i].1 && front[i] == e;
      assert pairs[i] == e;
    }
  }

  lemma EmptyExact(n: nat)
    ensures Exact(Built(n, []), {})
  {
    forall s: nat, t: nat
      ensures !Descends({}, s, t)
    {
      if Descends({}, s, t) {
        LastIsSubset({}, s, t);
      }
    }
    hide Descends;
    forall s: nat
      ensures ExactAt(Built(n, []), {}, s)
    {
      assert Children(Built(n, []), s) == {} && !HasZero(Built(n, []), s);
    }
  }

  lemma ZeroHasNone(sets: seq<Option<Entry>>, edges: set<Edge>)
    requires ExactAt(sets, edges, 0) && forall e :: e in edges ==> e.0 != 0
    ensures Children(sets, 0) == {} && !HasZero(sets, 0)
  {
    hide Descends;
    if HasZero(sets, 0) {
      FirstIsSuperset(edges, 0, 0);
    }
    if Children(sets, 0) != {} {
      var t :| t in Children(sets, 0);
      FirstIsSuperset(edges, 0, t);
    }
  }

  /** Recorded bottom-up, every entry has exactly the descendants of its set. */
  lemma {:induction false} BottomUpExact(n: nat, pairs: seq<Edge>)
    requires (forall i :: 0 <= i < |pairs| ==> 0 < pairs[i].0 < n) && BottomUp(pairs)
    ensures Exact(Built(n, pairs), Edges(pairs))
  {
    hide Descends, ExactAt, Recorded;
    if pairs == [] {
      EmptyExact(n);
      assert Edges([]) == {};
    } else {
      var front := pairs[..|pairs| - 1];
      var (sup, sub) := pairs[|pairs| - 1];
      BottomUpExact(n, front);
      EdgesSnoc(pairs);
      if sup == sub {
        RecordNothing(Built(n, front), sup, sub);
        assert Edges(pairs) == Edges(front);
      } else {
        BottomUpStep(n, front, sup, sub, pairs);
      }
    }
  }

  lemma RecordNothing(sets: seq<Option<Entry>>, sup: nat, sub: nat)
    requires sup < |sets| && sup == sub
    ensures Recorded(sets, sup, sub) == sets
  {
  }

  lemma BottomUpStep(n: nat, front: seq<Edge>, sup: nat, sub: nat, pairs: seq<Edge>)
    requires pairs == front + [(sup, sub)] && BottomUp(pairs) && sup != sub && 0 < sup < n
    requires forall i :: 0 <= i < |front| ==> 0 < front[i].0 < n
    requires Exact(Built(n, front), Edges(front))
    ensures Exact(Recorded(Built(n, front), sup, sub), Edges(front) + {(sup, sub)})
  {
    hide Descends, Recorded, Knows, Built;
    assert pairs[|front|] == (sup, sub);
    var sets, edges := Built(n, front), Edges(front);
    forall e | e in edges
      ensures e.0 != 0 && e.1 != sup
    {
      var i :| 0 <= i < |front| && front[i].0 != front[i].1 && front[i] == e;
      assert pairs[i] == e;
    }
    ZeroHasNone(sets, edges);
    forall s: nat
      ensures sup !in Children(sets, s)
    {
      assert ExactAt(sets, edges, s);
      if Descends(edges, s, sup) {
        LastIsSubset(edges, s, sup);
        assert false;
      }
    }
    RecordExactIff(sets, edges, sup, sub);
  }

  /** The order matters: with {1 > 2} recorded before {2 > 3}, set 1 does not learn of its descendant 3. */
  lemma LateEdgeMissed()
    ensures !BottomUp([(1, 2), (2, 3)]) && Descends(Edges([(1, 2), (2, 3)]), 1, 3) && 3 !in Children(Built(4, [(1, 2), (2, 3)]), 1)
  {
    var pairs: seq<Edge> := [(1, 2), (2, 3)];
    assert pairs[1].0 == pairs[0].1;
    assert pairs[0] in Edges(pairs) && pairs[1] in Edges(pairs);
    assert Descent(Edges(pairs), [1, 2, 3], 1, 3);
    assert pairs[..1] == [(1, 2)] && pairs[..1][..0] == [];
    assert Built(4, []) == [None, None, None, None];
    assert {} + {} + {2} == {2};
    assert Built(4, pairs[..1])[1] == Some(Entry({2}, false));
    assert Built(4, pairs)[1] == Some(Entry({2}, false));
  }

  // ---- the table ----

  /** Enters every key of `more` in `children`. */
  method InsertSubsetChildren(children: set<nat>, more: set<nat>) returns (r: set<nat>)
    ensures r == children + more
  {
    r := children;
    var todo := more;
    while todo != {}
      invariant todo <= more && r == children + (more - todo)
      decreases |todo|
    {
      var key :| key in todo;
      todo := todo - {key};
      r := r + {key};
    }
  }

  class AliasTable {
    var sets: seq<Option<Entry>>
    const strictAliasing: bool

    constructor (strict: bool)
      ensures sets == [] && strictAliasing == strict
    {
      sets, strictAliasing := [], strict;
    }

    /** A number that no alias set has yet, or zero if type-based analysis is off. */
    method NewAliasSet() returns (s: nat)
      modifies this
      ensures strictAliasing ==> 0 < s == |sets| - 1 && s >= |old(sets)| && sets == old(sets) + seq(|sets| - |old(sets)|, _ => None)
      ensures !strictAliasing ==> s == 0 && sets == old(sets)
    {
      if strictAliasing {
        if sets == [] {
          sets := sets + [None];
        }
        sets := sets + [None];
        s := |sets| - 1;
      } else {
        s := 0;
      }
    }

    /** Records that things in `sub` can alias things in `sup`. */
    method RecordAliasSubset(sup: nat, sub: nat)
      requires sup != sub ==> 0 < sup < |sets|
      modifies this
      ensures sup == sub ==> sets == old(sets)
      ensures sup != sub ==> sets == Recorded(old(sets), sup, sub)
    {
      if sup == sub {
        return;
      }
      var supEntry := if sets[sup].Some? then sets[sup].value else Entry({}, false);
      if sub == 0 {
        supEntry := supEntry.(hasZeroChild := true);
      } else {
        if sub < |sets| && sets[sub].Some? {
          var subEntry := sets[sub].value;
          if subEntry.hasZeroChild {
            supEntry := supEntry.(hasZeroChild := true);
          }
          var children := InsertSubsetChildren(supEntry.children, subEntry.children);
          supEntry := supEntry.(children := children);
        }
        supEntry := supEntry.(children := supEntry.children + {sub});
      }
      if sub != 0 {
        assert supEntry.children == Children(sets, sup) + Children(sets, sub) + {sub};
      }
      sets := sets[sup := Some(supEntry)];
    }

    /** Whether `s1` is a subset of `s2`. */
    predicate AliasSetSubsetOf(s1: nat, s2: nat)
      reads this
    {
      s2 == 0 || s1 in Children(sets, s2)
    }

    predicate AliasSetsMustConflictP(s1: nat, s2: nat) {
      s1 == 0 || s2 == 0 || s1 == s2
    }

    /** Whether the two alias sets may conflict. */
    predicate AliasSetsConflictP(s1: nat, s2: nat)
      reads this
    {
      || AliasSetsMustConflictP(s1, s2)
      || HasZero(sets, s1) || s2 in Children(sets, s1)
      || HasZero(sets, s2) || s1 in Children(sets, s2)
    }
  }

  lemma ConflictSymmetric(t: AliasTable, s1: nat, s2: nat)
    ensures t.AliasSetsConflictP(s1, s2) <==> t.AliasSetsConflictP(s2, s1)
  {
  }

  /** With an exact table, two sets conflict exactly if one of them is or contains zero, or one is the other or contains it. */
  lemma ConflictIff(t: AliasTable, edges: set<Edge>, s1: nat, s2: nat)
    requires Exact(t.sets, edges)
    ensures t.AliasSetsConflictP(s1, s2) <==>
      || s1 == s2 || s1 == 0 || s2 == 0 || Descends(edges, s1, 0) || Descends(edges, s2, 0)
      || Descends(edges, s1, s2) || Descends(edges, s2, s1)
    ensures s1 != 0 ==> (t.AliasSetSubsetOf(s1, s2) <==> s2 == 0 || Descends(edges, s2, s1))
  {
    hide Descends;
    assert ExactAt(t.sets, edges, s1) && ExactAt(t.sets, edges, s2);
  }
}
