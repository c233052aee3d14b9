/** Sequences of basic blocks linked through the `aux` field. */
module BlockChains {

  type Block = nat

  ghost predicate Distinct(c: seq<Block>) {
    forall i, j :: 0 <= i < j < |c| ==> c[i] != c[j]
  }

  /** Following `aux` from `c[0]` walks through `c`. */
  ghost predicate Link(aux: map<Block, Block>, c: seq<Block>) {
    forall i :: 0 <= i < |c| - 1 ==> c[i] in aux && aux[c[i]] == c[i + 1]
  }

  function Last(c: seq<Block>): Block
    requires c != []
  {
    c[|c| - 1]
  }

  lemma LinkFrame(aux: map<Block, Block>, aux': map<Block, Block>, c: seq<Block>)
    requires Link(aux, c)
    requires forall b :: b in c && b in aux ==> b in aux' && aux'[b] == aux[b]
    ensures Link(aux', c)
  {
  }

  /** Only the link of the last block of `c` may change. */
  lemma LinkFrameButLast(aux: map<Block, Block>, aux': map<Block, Block>, c: seq<Block>)
    requires c != [] && Link(aux, c) && Distinct(c)
    requires forall b :: b in c && b in aux && b != Last(c) ==> b in aux' && aux'[b] == aux[b]
    ensures Link(aux', c)
  {
  }

  lemma LinkAppend(aux: map<Block, Block>, c: seq<Block>, d: seq<Block>)
    requires Link(aux, c) && Link(aux, d) && c != [] && d != []
    requires Last(c) in aux && aux[Last(c)] == d[0]
    ensures Link(aux, c + d)
  {
  }

  /** Exchanging two parts of a chain keeps its blocks, each once. */
  lemma SwapKeepsBlocks(a: seq<Block>, b: seq<Block>, c: seq<Block>)
    requires Distinct(a + b + c)
    ensures Distinct(a + c + b)
    ensures forall x :: x in a + c + b <==> x in a + b + c
  {
    var s, t := a + b + c, a + c + b;
    forall i, j | 0 <= i < j < |t|
      ensures t[i] != t[j]
    {
      var i' := if i < |a| then i else if i < |a| + |c| then i + |b| else i - |c|;
      var j' := if j < |a| then j else if j < |a| + |c| then j + |b| else j - |c|;
      assert s[i'] == t[i] && s[j'] == t[j] && i' != j';
    }
  }

  lemma InsertKeepsDistinct(a: seq<Block>, x: Block, b: seq<Block>)
    requires Distinct(a + b) && x !in a + b
    ensures Distinct(a + [x] + b)
    ensures forall y :: y in a + [x] + b <==> y == x || y in a + b
  {
    var s, t := a + b, a + [x] + b;
    forall i, j | 0 <= i < j < |t|
      ensures t[i] != t[j]
    {
      if i != |a| && j != |a| {
        var i' := if i < |a| then i else i - 1;
        var j' := if j < |a| then j else j - 1;
        assert s[i'] == t[i] && s[j'] == t[j];
      } else if i == |a| {
        assert t[j] == s[j - 1];
      } else {
        assert t[i] == s[i];
      }
    }
    forall y | y == x || y in a + b
      ensures y in t
    {
      if y == x {
        assert t[|a|] == x;
      } else {
        var k :| 0 <= k < |s| && s[k] == y;
        assert t[if k < |a| then k else k + 1] == y;
      }
    }
  }

  /** The new block is put behind `bb`: it takes over the link of `bb`, and `bb` links to it. */
  function CopyLinked(aux: map<Block, Block>, bb: Block, newBb: Block): map<Block, Block> {
    (if bb in aux then aux[newBb := aux[bb]] else aux - {newBb})[bb := newBb]
  }

  lemma CopyLinkedKeepsLink(aux: map<Block, Block>, a: seq<Block>, x: Block, b: seq<Block>)
    requires a != [] && Distinct(a + b) && x !in a + b && Link(aux, a + b)
    requires b == [] ==> Last(a) !in aux
    ensures Link(CopyLinked(aux, Last(a), x), a + [x] + b)
    ensures b == [] ==> x !in CopyLinked(aux, Last(a), x)
  {
    var s, t, aux' := a + b, a + [x] + b, CopyLinked(aux, Last(a), x);
    forall i | 0 <= i < |t| - 1
      ensures t[i] in aux' && aux'[t[i]] == t[i + 1]
    {
      if i < |a| - 1 {
        assert t[i] == s[i] && t[i + 1] == s[i + 1] && s[i] != s[|a| - 1];
      } else if i == |a| - 1 {
      } else if i == |a| {
        assert s[|a| - 1] == Last(a) && t[i + 1] == s[|a|];
      } else {
        assert t[i] == s[i - 1] && t[i + 1] == s[i] && s[i - 1] != s[|a| - 1];
      }
    }
  }

  /** The chain `c` after the loop that starts at `c[h]` was rotated to end in `c[m]`. */
  function Rotated(c: seq<Block>, h: nat, m: nat): seq<Block>
    requires h <= m < |c|
  {
    c[..h] + c[m + 1..] + c[h..m + 1]
  }

  /** The `aux` field after that rotation. */
  function RotatedLinks(aux: map<Block, Block>, c: seq<Block>, h: nat, m: nat): map<Block, Block>
    requires h <= m < |c| && c[m] in aux
  {
    if h == 0 then aux else aux[c[h - 1] := aux[c[m]]]
  }

  /** Where block `i` of the rotated chain was. */
  function RotatedFrom(n: nat, h: nat, m: nat, i: nat): nat
    requires h <= m < n && i < n
  {
    if i < h then i else if i < h + (n - 1 - m) then m + 1 + (i - h) else i - (n - 1 - m)
  }

  lemma RotatedAt(c: seq<Block>, h: nat, m: nat, i: nat)
    requires h <= m < |c| && i < |c|
    ensures |Rotated(c, h, m)| == |c| && Rotated(c, h, m)[i] == c[RotatedFrom(|c|, h, m, i)]
  {}

  /** One after the other in the rotated chain, the two blocks are linked. */
  lemma RotatedLinked(aux: map<Block, Block>, c: seq<Block>, h: nat, m: nat, i: nat)
    requires h <= m < |c| && i < |c| - 1 && Distinct(c) && Link(aux, c)
    requires Last(c) in aux && aux[Last(c)] == c[h]
    ensures var aux', b := RotatedLinks(aux, c, h, m) - {c[m]}, c[RotatedFrom(|c|, h, m, i)];
            b in aux' && aux'[b] == c[RotatedFrom(|c|, h, m, i + 1)]
  {
    var k := RotatedFrom(|c|, h, m, i);
    assert c[k] != c[m];
    if i != h - 1 {
      assert h > 0 ==> c[k] != c[h - 1];
    }
    if k == |c| - 1 {
      assert c[k] == Last(c);
    }
  }

  lemma RotatedBlocks(c: seq<Block>, h: nat, m: nat)
    requires h <= m < |c| && Distinct(c)
    ensures var r := Rotated(c, h, m); Distinct(r) && forall b :: b in r <==> b in c
  {
    assert c == c[..h] + c[h..m + 1] + c[m + 1..];
    hide Distinct;
    SwapKeepsBlocks(c[..h], c[h..m + 1], c[m + 1..]);
  }

  lemma RotatedLink(aux: map<Block, Block>, c: seq<Block>, h: nat, m: nat)
    requires h <= m < |c| && Distinct(c) && Link(aux, c) && Last(c) in aux && aux[Last(c)] == c[h]
    ensures Link(RotatedLinks(aux, c, h, m) - {c[m]}, Rotated(c, h, m))
  {
    var r, aux' := Rotated(c, h, m), RotatedLinks(aux, c, h, m) - {c[m]};
    RotatedAt(c, h, m, 0);
    hide Rotated, RotatedLinks, Distinct, RotatedFrom;
    forall i | 0 <= i < |r| - 1
      ensures r[i] in aux' && aux'[r[i]] == r[i + 1]
    {
      RotatedAt(c, h, m, i);
      RotatedAt(c, h, m, i + 1);
      RotatedLinked(aux, c, h, m, i);
    }
  }

  lemma RotatedKeepsChain(aux: map<Block, Block>, c: seq<Block>, h: nat, m: nat)
    requires h <= m < |c| && Distinct(c) && Link(aux, c)
    requires Last(c) in aux && aux[Last(c)] == c[h]
    ensures var r := Rotated(c, h, m);
      && Distinct(r) && |r| == |c| && (forall b :: b in r <==> b in c)
      && Last(r) == c[m] && r[0] == (if h == 0 then aux[c[m]] else c[0])
      && Link(RotatedLinks(aux, c, h, m) - {c[m]}, r)
  {
    RotatedAt(c, h, m, |c| - 1);
    RotatedAt(c, h, m, 0);
    RotatedBlocks(c, h, m);
    RotatedLink(aux, c, h, m);
    assert h == 0 ==> aux[c[m]] == Rotated(c, h, m)[0] by {
      if h == 0 && m < |c| - 1 {
        assert aux[c[m]] == c[m + 1];
      }
    }
    hide Rotated, RotatedLinks, Distinct, Link;
  }

  lemma CopyThenCut(aux: map<Block, Block>, prev: Block, x: Block, last: Block)
    requires prev != last && x != last && prev in aux
    ensures CopyLinked(aux, prev, x) - {last} == CopyLinked(aux - {last}, prev, x)
  {
  }

  lemma Cut(aux: map<Block, Block>, c: seq<Block>)
    requires c != [] && Distinct(c) && Link(aux, c)
    ensures Link(aux - {Last(c)}, c)
  {
  }

  /** Rotation touches only links of blocks of the chain. */
  lemma RotatedLinksFrame(aux: map<Block, Block>, c: seq<Block>, h: nat, m: nat)
    requires h <= m < |c| && Link(aux, c) && c[m] in aux
    ensures var aux' := RotatedLinks(aux, c, h, m) - {c[m]};
      && aux'.Keys <= aux.Keys
      && forall b :: b !in c ==> (b in aux <==> b in aux') && (b in aux ==> aux'[b] == aux[b])
  {
  }

  lemma LastOf(a: seq<Block>, x: seq<Block>, b: seq<Block>)
    requires b != []
    ensures Last(a + x + b) == Last(a + b) == Last(b)
  {
  }

  lemma DistinctConcat(a: seq<Block>, b: seq<Block>)
    requires Distinct(a) && Distinct(b) && forall x :: x in a ==> x !in b
    ensures Distinct(a + b)
  {
    var s := a + b;
    forall i, j | 0 <= i < j < |s|
      ensures s[i] != s[j]
    {
      if i < |a| <= j {
        assert s[i] in a && s[j] in b;
      } else if i >= |a| {
        assert s[i] == b[i - |a|] && s[j] == b[j - |a|];
      }
    }
  }
}
