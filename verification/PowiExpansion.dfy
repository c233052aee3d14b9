/** Powers with an integer exponent as a list of products, and the cost worked out beforehand. */
module PowiExpansion {
  import opened PowiTable

  const WINDOW_SIZE: nat := 3
  const WINDOW: nat := 8

  function Magnitude(n: int): nat {
    if n < 0 then -n else n
  }

  // ---- the powers made on the way to one power ----

  /** All the powers that x^n is made from, x itself and x^n among them. */
  ghost function Steps(n: nat): (powers: set<nat>)
    requires n >= 1
    ensures {1, n} <= powers
    ensures forall m :: m in powers ==> 1 <= m <= n
  {
    if n < TABLE_SIZE then Needed(n)
    else if n % 2 == 1 then {n} + Steps(n - n % WINDOW) + Needed(n % WINDOW)
    else {n} + Steps(n / 2)
  }

  /** Those of some powers that the cache has room for. */
  ghost function Small(powers: set<nat>): set<nat> {
    set m | m in powers && m < TABLE_SIZE
  }

  /** Whatever is marked up to `n` is marked with all it needs. */
  ghost predicate ClosedBelow(marked: set<nat>, n: nat) {
    forall m :: m in marked && m <= n ==> 1 <= m < TABLE_SIZE && Needed(m) <= marked
  }

  lemma ClosedWithout(marked: set<nat>, n: nat, below: nat)
    requires ClosedBelow(marked, n) && below < n
    ensures ClosedBelow(marked + {n}, below)
  {
    hide Needed;
  }

  lemma ClosedWith(marked: set<nat>, n: nat, below: nat)
    requires 1 <= n < TABLE_SIZE && ClosedBelow(marked, below)
    ensures ClosedBelow(marked + Needed(n), below)
  {
    hide Needed;
    forall m | m in Needed(n)
      ensures Needed(m) <= Needed(n)
    {
      NeededClosed(n, m);
    }
  }

  lemma {:induction false} ClosedWithSteps(marked: set<nat>, n: nat, below: nat)
    requires 1 <= n && ClosedBelow(marked, below)
    ensures ClosedBelow(marked + Small(Steps(n)), below)
  {
    hide Needed, ClosedBelow;
    if n < TABLE_SIZE {
      assert Small(Steps(n)) == Needed(n);
      ClosedWith(marked, n, below);
    } else if n % 2 == 1 {
      ClosedWithSteps(marked, n - n % WINDOW, below);
      var more := marked + Small(Steps(n - n % WINDOW));
      ClosedWith(more, n % WINDOW, below);
      assert marked + Small(Steps(n)) == more + Needed(n % WINDOW);
    } else {
      ClosedWithSteps(marked, n / 2, below);
      assert Small(Steps(n)) == Small(Steps(n / 2));
    }
  }

  // ---- the cost ----

  ghost function Marked(cache: array<bool>): set<nat>
    reads cache
  {
    set m | 0 <= m < cache.Length && cache[m]
  }

  lemma TwoParts(whole: set<nat>, n: nat, a: set<nat>, b: set<nat>, had: set<nat>)
    requires whole == {n} + a + b && n !in had && n !in a && n !in b
    ensures |whole - had| == 1 + |a - (had + {n})| + |b - (had + {n} + a)|
    ensures |whole - had| == 1 + |a - had| + |b - (had + a)|
    ensures had + whole == had + {n} + a + b
  {
    var c, d := a - had, b - (had + a);
    assert a - (had + {n}) == c && b - (had + {n} + a) == d;
    assert whole - had == {n} + c + d;
    assert |c + d| == |c| + |d|;
    assert |{n} + (c + d)| == 1 + |c + d|;
    assert {n} + (c + d) == {n} + c + d;
  }

  /** The products for one power in the table: one for each power not yet marked. */
  method PowiLookupCost(n: nat, cache: array<bool>) returns (cost: nat)
    requires 1 <= n < TABLE_SIZE && cache.Length == TABLE_SIZE && cache[1]
    requires ClosedBelow(Marked(cache), n)
    modifies cache
    ensures cache[1] && Marked(cache) == old(Marked(cache)) + Needed(n)
    ensures cost == |Needed(n) - old(Marked(cache))|
    decreases n
  {
    hide Needed, ClosedBelow, TableRow;
    ghost var had := Marked(cache);
    if cache[n] {
      ClosedAt(had, n);
      return 0;
    }
    cache[n] := true;
    var j := Table(n);
    assert Marked(cache) == had + {n};
    hide Marked;
    ClosedWithout(had, n, n - j);
    ClosedWithout(had, n, j);
    var first := PowiLookupCost(n - j, cache);
    ClosedWith(had + {n}, n - j, j);
    var second := PowiLookupCost(j, cache);
    LookupSplits(n, j, had);
    cost := first + second + 1;
  }

  lemma LookupSplits(n: nat, j: nat, had: set<nat>)
    requires 2 <= n < TABLE_SIZE && j == Table(n) && n !in had
    ensures |Needed(n) - had| == 1 + |Needed(n - j) - (had + {n})| + |Needed(j) - (had + {n} + Needed(n - j))|
    ensures had + Needed(n) == had + {n} + Needed(n - j) + Needed(j)
  {
    hide Needed, TableRow;
    NeededStep(n, n - j);
    TwoParts(Needed(n), n, Needed(n - j), Needed(j), had);
  }

  lemma ClosedAt(marked: set<nat>, n: nat)
    requires ClosedBelow(marked, n) && n in marked && n < TABLE_SIZE
    ensures n >= 1 && Needed(n) <= marked && |Needed(n) - marked| == 0 && marked == marked + Needed(n)
  {
    assert Needed(n) <= marked;
    assert Needed(n) - marked == {};
  }

  lemma StepsHalve(k: nat)
    requires k >= WINDOW
    ensures Steps(2 * k) == {2 * k} + Steps(k)
  {
    hide Needed;
    if 2 * k < TABLE_SIZE {
      NeededEven(k);
    } else {
      assert 2 * k / 2 == k;
    }
  }

  /** Halving an even number leaves out exactly that number. */
  lemma StepsEven(k: nat, had: set<nat>)
    requires k >= WINDOW && forall m :: m in had ==> m < WINDOW
    ensures |Steps(2 * k) + had| == 1 + |Steps(k) + had|
  {
    hide Steps;
    StepsHalve(k);
    assert Steps(2 * k) + had == {2 * k} + (Steps(k) + had);
  }

  lemma StepsWindow(k: nat, had: set<nat>)
    requires 8 * k >= TABLE_SIZE && forall m :: m in had ==> m < WINDOW
    ensures |Steps(8 * k) + had| == 3 + |Steps(k) + had|
  {
    hide Steps, Needed;
    StepsEven(k, had);
    StepsEven(2 * k, had);
    StepsEven(4 * k, had);
  }

  /** Shifting out an odd digit leaves out that number, three more, and the digit's powers. */
  lemma StepsOdd(val: nat, had: set<nat>)
    requires val >= TABLE_SIZE && val % 2 == 1 && forall m :: m in had ==> m < WINDOW
    ensures val / WINDOW >= 1 && val % WINDOW >= 1
    ensures |Steps(val) + had| == 4 + |Steps(val / WINDOW) + (had + Needed(val % WINDOW))|
  {
    hide Needed, Steps;
    var k, d := val / WINDOW, val % WINDOW;
    StepsOddUnfolds(val);
    StepsWindow(k, had + Needed(d));
    assert Steps(val) + had == {val} + (Steps(8 * k) + (had + Needed(d)));
  }

  lemma StepsOddUnfolds(val: nat)
    requires val >= TABLE_SIZE && val % 2 == 1
    ensures val / WINDOW >= 1 && val % WINDOW >= 1
    ensures val - val % WINDOW == 8 * (val / WINDOW) >= TABLE_SIZE
    ensures Steps(val) == {val} + Steps(8 * (val / WINDOW)) + Needed(val % WINDOW)
  {
    hide Needed;
    assert val - val % WINDOW == 8 * (val / WINDOW);
  }

  /** What a digit or a table entry adds. */
  lemma AddedPowers(more: set<nat>, had: set<nat>)
    ensures |had + more| == |had| + |more - had|
  {
    assert had + more == had + (more - had);
  }

  /** `result` products made the powers marked; the rest for `n` are those still to make for `val`. */
  ghost predicate CostSoFar(n: nat, val: nat, marked: set<nat>, result: nat)
    requires n >= 1 && val >= 1
  {
    && ClosedBelow(marked, TABLE_SIZE)
    && (forall m :: m in marked ==> 1 <= m < WINDOW)
    && result + |Steps(val) + marked| == |Steps(n) - {1}| + |marked|
  }

  lemma CostStart(n: nat)
    requires n >= 1
    ensures CostSoFar(n, n, {1}, 0)
  {
    hide Needed, Steps;
    OnlyOne();
    AddedPowers(Steps(n), {1});
    assert Steps(n) + {1} == {1} + Steps(n);
  }

  lemma CostEven(n: nat, val: nat, marked: set<nat>, result: nat)
    requires n >= 1 && val >= TABLE_SIZE && val % 2 == 0 && CostSoFar(n, val, marked, result)
    ensures CostSoFar(n, val / 2, marked, result + 1)
  {
    hide Needed, Steps, ClosedBelow;
    StepsEven(val / 2, marked);
  }

  lemma CostOdd(n: nat, val: nat, marked: set<nat>, result: nat)
    requires n >= 1 && val >= TABLE_SIZE && val % 2 == 1 && CostSoFar(n, val, marked, result)
    ensures val / WINDOW >= 1 && val % WINDOW >= 1
    ensures CostSoFar(n, val / WINDOW, marked + Needed(val % WINDOW),
                      result + |Needed(val % WINDOW) - marked| + 4)
  {
    hide Needed, Steps, ClosedBelow;
    StepsOdd(val, marked);
    AddedPowers(Needed(val % WINDOW), marked);
    ClosedWith(marked, val % WINDOW, TABLE_SIZE);
  }

  lemma CostEnd(n: nat, val: nat, marked: set<nat>, result: nat)
    requires n >= 1 && 1 <= val < TABLE_SIZE && CostSoFar(n, val, marked, result)
    ensures result + |Needed(val) - marked| == |Steps(n) - {1}|
  {
    hide Needed, Steps, ClosedBelow;
    StepsInTable(val);
    AddedPowers(Needed(val), marked);
    assert Steps(val) + marked == marked + Needed(val);
  }

  lemma CostCloses(n: nat, val: nat, marked: set<nat>, result: nat, below: nat)
    requires n >= 1 && val >= 1 && CostSoFar(n, val, marked, result) && below < TABLE_SIZE
    ensures ClosedBelow(marked, below)
  {
    hide Needed, Steps;
  }

  /** The number of products for x^n, worked out on the bits of `n` from the lowest up. */
  method PowiCost(n: int) returns (result: nat)
    ensures n == 0 ==> result == 0
    ensures n != 0 ==> result == |Steps(Magnitude(n)) - {1}|
    ensures n != 0 ==> result <= 2 * Bits(Magnitude(n)) - 2
  {
    hide Needed, Steps, Bits, CostSoFar, ClosedBelow, Marked, TableRow, Splits;
    if n == 0 {
      return 0;
    }
    var val := Magnitude(n);
    var cache := new bool[TABLE_SIZE](i => false);
    cache[1] := true;
    result := 0;
    OnlyMarked(cache);
    CostStart(val);
    while val >= TABLE_SIZE
      invariant 1 <= val && cache[1]
      invariant CostSoFar(Magnitude(n), val, Marked(cache), result)
    {
      ghost var had := Marked(cache);
      if val % 2 == 1 {
        CostOdd(Magnitude(n), val, had, result);
        var digit := val % WINDOW;
        CostCloses(Magnitude(n), val, had, result, digit);
        var more := PowiLookupCost(digit, cache);
        result := result + (more + WINDOW_SIZE + 1);
        val := val / WINDOW;
      } else {
        CostEven(Magnitude(n), val, had, result);
        val := val / 2;
        result := result + 1;
      }
    }
    CostCloses(Magnitude(n), val, Marked(cache), result, val);
    CostEnd(Magnitude(n), val, Marked(cache), result);
    CostBound(Magnitude(n));
    var more := PowiLookupCost(val, cache);
    result := result + more;
  }

  lemma OnlyMarked(cache: array<bool>)
    requires cache.Length > 1 && forall i :: 0 <= i < cache.Length ==> (cache[i] <==> i == 1)
    ensures Marked(cache) == {1}
  {}

  lemma StepsInTable(n: nat)
    requires 1 <= n < TABLE_SIZE
    ensures Steps(n) == Needed(n)
  {}

  // ---- at most two products a digit ----

  /** The powers a window has left behind beyond 1 and 2, less one for free. */
  ghost function Extra(had: set<nat>): nat {
    if had <= {1, 2} then 0 else |had - {1, 2}| - 1
  }

  /** A digit leaves at most two powers behind beyond what it may. */
  lemma DigitExtra(had: set<nat>, d: nat)
    requires 1 <= d < WINDOW && d % 2 == 1 && (had <= {1, 2} || 3 in had)
    ensures had + Needed(d) <= {1, 2} || 3 in had + Needed(d)
    ensures Extra(had + Needed(d)) <= Extra(had) + 2
  {
    hide Needed;
    DigitLeaves(d);
    var a, b, c := had - {1, 2}, Needed(d) - {1, 2}, Needed(d) - {1, 2, 3};
    assert had + Needed(d) - {1, 2} == a + b;
    SizeOfUnion(a, b);
    SizeOfUnion(a, c);
    if 3 in had {
      assert a + b == a + c;
    } else {
      assert a == {};
    }
  }

  /** A digit leaves behind no more than 3 and two others, or nothing. */
  lemma DigitLeaves(d: nat)
    requires 1 <= d < WINDOW && d % 2 == 1
    ensures |Needed(d) - {1, 2}| <= 3 && |Needed(d) - {1, 2, 3}| <= 2
    ensures Needed(d) <= {1, 2} || 3 in Needed(d)
  {
    hide Needed;
    Digits();
    if
    case d == 1 =>
      assert Needed(d) - {1, 2} == {} == Needed(d) - {1, 2, 3};
    case d == 3 =>
      assert Needed(d) - {1, 2} == {3} && Needed(d) - {1, 2, 3} == {};
    case d == 5 =>
      assert Needed(d) - {1, 2} == {3, 5} && Needed(d) - {1, 2, 3} == {5};
    case d == 7 =>
      assert Needed(d) - {1, 2} == {3, 4, 7} && Needed(d) - {1, 2, 3} == {4, 7};
  }

  lemma Digits()
    ensures Needed(1) == {1} && Needed(3) == {1, 2, 3}
    ensures Needed(5) == {1, 2, 3, 5} && Needed(7) == {1, 2, 3, 4, 7}
  {
    hide TableRow;
    Entries0();
  }

  lemma {:induction false} StepsBound(n: nat, had: set<nat>)
    requires n >= 32 && 1 in had && (had <= {1, 2} || 3 in had)
    requires forall m :: m in had ==> 1 <= m < WINDOW
    ensures |Steps(n) + had| - 1 <= 2 * Bits(n) - 2 + Extra(had)
  {
    hide Needed, Steps, Extra, Bits;
    if n < TABLE_SIZE {
      StepsInTable(n);
      TableWith(n, had);
    } else if n % 2 == 1 {
      var k, d := OddWindow(n);
      StepsOdd(n, had);
      DigitExtra(had, d);
      BitsWindow(n);
      StepsBound(k, had + Needed(d));
    } else {
      var k := EvenHalf(n);
      StepsEven(k, had);
      StepsBound(k, had);
    }
  }

  lemma OddWindow(n: nat) returns (k: nat, d: nat)
    requires n >= TABLE_SIZE && n % 2 == 1
    ensures k == n / WINDOW && d == n % WINDOW && 32 <= k < n && 1 <= d < WINDOW && d % 2 == 1
  {
    k, d := n / WINDOW, n % WINDOW;
    assert n == 8 * k + d;
  }

  lemma EvenHalf(n: nat) returns (k: nat)
    requires n >= TABLE_SIZE && n % 2 == 0
    ensures n == 2 * k && 32 <= k < n && Bits(n) == 1 + Bits(k)
  {
    k := n / 2;
  }

  lemma BitsWindow(n: nat)
    requires n >= TABLE_SIZE
    ensures Bits(n) == 3 + Bits(n / WINDOW)
  {
    assert Bits(n) == 1 + Bits(n / 2);
    assert Bits(n / 2) == 1 + Bits(n / 2 / 2);
    assert Bits(n / 2 / 2) == 1 + Bits(n / 2 / 2 / 2);
    assert n / 2 / 2 / 2 == n / 8;
  }

  lemma TwoNeeded(n: nat)
    requires 2 <= n < TABLE_SIZE
    ensures 2 in Needed(n)
    decreases n
  {
    hide TableRow;
    if n > 2 {
      TwoNeeded(if Table(n) >= 2 then Table(n) else n - Table(n));
    }
  }

  lemma TableWith(n: nat, had: set<nat>)
    requires 32 <= n < TABLE_SIZE && 1 in had
    ensures |Needed(n) + had| - 1 <= 2 * Bits(n) - 2 + Extra(had)
  {
    hide Needed, Bits;
    TableBound(n);
    TwoNeeded(n);
    var a, b := Needed(n) - {1}, had - {1, 2};
    assert |Needed(n) + had - {1}| == |Needed(n) + had| - 1;
    SizeOfUnion(a, b);
    SizeOfPart(Needed(n) + had - {1}, a + b);
    if had <= {1, 2} {
      assert b == {};
    }
  }

  /** What the comment in the source promises: no more than two products a digit, less two. */
  lemma CostBound(n: nat)
    requires n >= 1
    ensures |Steps(n) - {1}| <= 2 * Bits(n) - 2
  {
    hide Needed, Steps, Bits;
    if n < TABLE_SIZE {
      StepsInTable(n);
      TableBound(n);
    } else {
      StepsBound(n, {1});
      assert Steps(n) + {1} == Steps(n);
      assert |Steps(n)| == |Steps(n) - {1}| + 1 by {
        assert Steps(n) == (Steps(n) - {1}) + {1};
      }
    }
  }

  // ---- the products ----

  /** The register `target` is given the product of two others. */
  datatype Product = Product(target: nat, left: nat, right: nat)

  /** The exponents the registers hold when `x` holds the base, as far as the products go. */
  ghost function Exponents(products: seq<Product>, x: nat): (exps: map<nat, nat>)
    ensures x in exps
  {
    if products == [] then map[x := 1]
    else
      var exps := Exponents(products[..|products| - 1], x);
      var p := products[|products| - 1];
      if p.left in exps && p.right in exps then exps[p.target := exps[p.left] + exps[p.right]] else exps
  }

  /** Every product takes registers already set, and sets one that is not. */
  ghost predicate SingleAssignment(products: seq<Product>, x: nat) {
    products != [] ==>
      var before := products[..|products| - 1];
      var p := products[|products| - 1];
      && SingleAssignment(before, x)
      && p.left in Exponents(before, x) && p.right in Exponents(before, x)
      && p.target !in Exponents(before, x)
  }

  type Registers = nat -> real

  function Write(env: Registers, target: nat, value: real): Registers {
    (r: nat) => if r == target then value else env(r)
  }

  function Run(products: seq<Product>, env: Registers): Registers {
    if products == [] then env
    else
      var before := Run(products[..|products| - 1], env);
      var p := products[|products| - 1];
      Write(before, p.target, before(p.left) * before(p.right))
  }

  function Power(x: real, n: nat): real {
    if n == 0 then 1.0 else x * Power(x, n - 1)
  }

  lemma {:induction false} PowerSum(x: real, m: nat, n: nat)
    ensures Power(x, m + n) == Power(x, m) * Power(x, n)
  {
    if m > 0 {
      PowerSum(x, m - 1, n);
      Associates(x, Power(x, m - 1), Power(x, n));
    }
  }

  lemma PowerOne(x: real)
    ensures Power(x, 1) == x
  {
    assert Power(x, 1) == x * Power(x, 0);
  }

  lemma Associates(a: real, b: real, c: real)
    ensures a * (b * c) == a * b * c
  {}

  lemma RunLast(before: seq<Product>, p: Product, x: nat, env: Registers, r: nat)
    ensures Run(before + [p], env)(r)
            == if r == p.target then Run(before, env)(p.left) * Run(before, env)(p.right) else Run(before, env)(r)
  {
    assert (before + [p])[..|before|] == before;
  }

  lemma NoProducts(x: nat, env: Registers)
    ensures Run([], env) == env && Exponents([], x) == map[x := 1]
  {}

  lemma LastProduct(products: seq<Product>, x: nat)
    requires products != [] && SingleAssignment(products, x)
    ensures var before, p := products[..|products| - 1], products[|products| - 1];
            && products == before + [p] && SingleAssignment(before, x)
            && p.left in Exponents(before, x) && p.right in Exponents(before, x)
            && p.target !in Exponents(before, x)
  {}

  /** Whatever the registers hold at first, each ends with its power of the base. */
  lemma {:induction false} RunComputes(products: seq<Product>, x: nat, env: Registers, r: nat)
    requires SingleAssignment(products, x) && r in Exponents(products, x)
    ensures Run(products, env)(r) == Power(env(x), Exponents(products, x)[r])
  {
    hide Run, Exponents, Power, SingleAssignment;
    if products == [] {
      NoProducts(x, env);
      PowerOne(env(x));
    } else {
      LastProduct(products, x);
      var before, p := products[..|products| - 1], products[|products| - 1];
      ExponentsAppend(before, x, p);
      RunLast(before, p, x, env, r);
      if r == p.target {
        RunComputes(before, x, env, p.left);
        RunComputes(before, x, env, p.right);
        PowerSum(env(x), Exponents(before, x)[p.left], Exponents(before, x)[p.right]);
      } else {
        RunComputes(before, x, env, r);
      }
    }
  }

  lemma ExponentsAppend(products: seq<Product>, x: nat, p: Product)
    requires SingleAssignment(products, x)
    requires p.left in Exponents(products, x) && p.right in Exponents(products, x)
    requires p.target !in Exponents(products, x)
    ensures SingleAssignment(products + [p], x)
    ensures var exps := Exponents(products, x);
            Exponents(products + [p], x) == exps[p.target := exps[p.left] + exps[p.right]]
  {
    assert (products + [p])[..|products|] == products;
  }

  // ---- the expansion ----

  /** The register that holds, or is to hold, one of the powers below the size of the table. */
  datatype Slot = Empty | Held(reg: nat)

  /** The instructions emitted so far, and the next register not yet handed out. */
  class Emitter {
    var products: seq<Product>
    var registers: nat

    constructor (registers: nat)
      ensures products == [] && this.registers == registers
    {
      products := [];
      this.registers := registers;
    }

    method NewRegister() returns (reg: nat)
      modifies this
      ensures reg == old(registers) && registers == reg + 1 && products == old(products)
    {
      reg := registers;
      registers := registers + 1;
    }

    method EmitProduct(target: nat, left: nat, right: nat)
      modifies this
      ensures products == old(products) + [Product(target, left, right)]
      ensures registers == old(registers)
    {
      products := products + [Product(target, left, right)];
    }
  }

  ghost function Filled(cache: seq<Slot>): set<nat> {
    set m | 0 <= m < |cache| && cache[m].Held?
  }

  /** Slot `m`, if filled, is filled with a register that has been given x^m. */
  ghost predicate SlotDone(cache: seq<Slot>, exps: map<nat, nat>, m: nat) {
    m < |cache| && cache[m].Held? ==> cache[m].reg in exps && exps[cache[m].reg] == m
  }

  /** The slots up to `n` are all done; the registers in use have been handed out. */
  ghost predicate Ready(cache: seq<Slot>, exps: map<nat, nat>, registers: nat, n: nat) {
    && |cache| == TABLE_SIZE && cache[1].Held?
    && ClosedBelow(Filled(cache), n)
    && (forall m: nat :: m <= n ==> SlotDone(cache, exps, m))
    && (forall r :: r in exps ==> r < registers)
  }

  /** Only new registers have been set, and only free slots filled, with finished powers. */
  ghost predicate Advances(cache: seq<Slot>, exps: map<nat, nat>, registers: nat,
                           cache': seq<Slot>, exps': map<nat, nat>, registers': nat)
  {
    && |cache'| == |cache| && registers <= registers'
    && (forall m :: 0 <= m < |cache| && cache[m].Held? ==> cache'[m] == cache[m])
    && (forall m :: 0 <= m < |cache| && !cache[m].Held? ==> SlotDone(cache', exps', m))
    && (forall r :: r in exps ==> r in exps' && exps'[r] == exps[r])
    && (forall r :: r in exps' && r !in exps ==> registers <= r)
    && (forall r :: r in exps' ==> r < registers')
  }

  lemma ReadyWithin(cache: seq<Slot>, exps: map<nat, nat>, registers: nat, n: nat, target: nat, below: nat)
    requires Ready(cache, exps, registers, n) && 1 <= n < TABLE_SIZE && below < n && target >= registers
    ensures Ready(cache[n := Held(target)], exps, target + 1, below)
    ensures Filled(cache[n := Held(target)]) == Filled(cache) + {n}
  {
    hide Needed, ClosedBelow;
    var cache' := cache[n := Held(target)];
    assert Filled(cache') == Filled(cache) + {n};
    ClosedWithout(Filled(cache), n, below);
    forall m: nat | m <= below
      ensures SlotDone(cache', exps, m)
    {
      assert SlotDone(cache, exps, m);
    }
  }

  lemma ReadyAfter(cache: seq<Slot>, exps: map<nat, nat>, registers: nat, made: nat,
                   cache': seq<Slot>, exps': map<nat, nat>, registers': nat, below: nat)
    requires made >= 1 && Ready(cache, exps, registers, below)
    requires Advances(cache, exps, registers, cache', exps', registers')
    requires Filled(cache') == Filled(cache) + Small(Steps(made))
    ensures Ready(cache', exps', registers', below)
  {
    hide Needed, ClosedBelow, Steps;
    ClosedWithSteps(Filled(cache), made, below);
    forall m: nat | m <= below
      ensures SlotDone(cache', exps', m)
    {
      assert SlotDone(cache, exps, m);
    }
    assert cache'[1] == cache[1];
  }

  lemma AdvancesTwice(cache: seq<Slot>, exps: map<nat, nat>, registers: nat,
                      cache': seq<Slot>, exps': map<nat, nat>, registers': nat,
                      cache'': seq<Slot>, exps'': map<nat, nat>, registers'': nat)
    requires Advances(cache, exps, registers, cache', exps', registers')
    requires Advances(cache', exps', registers', cache'', exps'', registers'')
    ensures Advances(cache, exps, registers, cache'', exps'', registers'')
  {
    forall m | 0 <= m < |cache| && !cache[m].Held?
      ensures SlotDone(cache'', exps'', m)
    {
      assert SlotDone(cache', exps', m);
      if !cache'[m].Held? {
        assert SlotDone(cache'', exps'', m);
      }
    }
  }

  lemma AdvancesProduct(cache: seq<Slot>, exps: map<nat, nat>, n: nat, target: nat,
                        cache': seq<Slot>, exps': map<nat, nat>, registers': nat)
    requires Advances(cache, exps, target + 1, cache', exps', registers') && target !in exps
    ensures target !in exps'
    ensures Advances(cache, exps, target, cache', exps'[target := n], registers')
  {
    forall m | 0 <= m < |cache| && !cache[m].Held?
      ensures SlotDone(cache', exps'[target := n], m)
    {
      assert SlotDone(cache', exps', m);
    }
  }

  /** The slot filled beforehand becomes done with the last product. */
  lemma AdvancesSlot(cache: seq<Slot>, exps: map<nat, nat>, n: nat, target: nat,
                     cache': seq<Slot>, exps': map<nat, nat>, registers': nat)
    requires |cache| == TABLE_SIZE && 1 <= n < TABLE_SIZE && !cache[n].Held?
    requires Advances(cache[n := Held(target)], exps, target, cache', exps', registers')
    requires target in exps' && exps'[target] == n
    ensures Advances(cache, exps, target, cache', exps', registers')
  {
    var marked := cache[n := Held(target)];
    assert cache'[n] == marked[n];
    forall m | 0 <= m < |cache| && !cache[m].Held?
      ensures SlotDone(cache', exps', m)
    {
      if m != n {
        assert !marked[m].Held?;
        assert SlotDone(cache', exps', m);
      }
    }
  }

  lemma ReadyFor(cache: seq<Slot>, exps: map<nat, nat>, registers: nat, n: nat, below: nat)
    requires Ready(cache, exps, registers, n) && below <= n
    ensures Ready(cache, exps, registers + 1, below)
  {
    hide Needed;
  }

  lemma NothingNew(cache: seq<Slot>, exps: map<nat, nat>, registers: nat, n: nat)
    requires 1 <= n < TABLE_SIZE && Ready(cache, exps, registers, n) && cache[n].Held?
    ensures Advances(cache, exps, registers, cache, exps, registers)
    ensures Filled(cache) == Filled(cache) + Small(Steps(n))
    ensures Steps(n) - Filled(cache) == {}
    ensures cache[n].reg in exps && exps[cache[n].reg] == n
  {
    hide Needed;
    StepsInTable(n);
    assert SlotDone(cache, exps, n);
    assert n in Filled(cache);
  }

  lemma ReadySlots(cache: seq<Slot>, exps: map<nat, nat>, registers: nat, n: nat)
    requires Ready(cache, exps, registers, n)
    ensures |cache| == TABLE_SIZE && cache[1].Held? && registers !in exps
    ensures forall m :: m in Filled(cache) ==> m < TABLE_SIZE
    ensures n < TABLE_SIZE && !cache[n].Held? ==> n !in Filled(cache)
  {}

  /** Two powers made one after the other give their product. */
  lemma Join(cache: seq<Slot>, exps: map<nat, nat>, target: nat,
             cache': seq<Slot>, exps': map<nat, nat>, registers': nat, op0: nat,
             cache'': seq<Slot>, exps'': map<nat, nat>, registers'': nat, op1: nat)
    requires target !in exps
    requires Advances(cache, exps, target + 1, cache', exps', registers') && op0 in exps'
    requires Advances(cache', exps', registers', cache'', exps'', registers'') && op1 in exps''
    ensures target !in exps'' && op0 in exps'' && exps''[op0] == exps'[op0]
    ensures Advances(cache, exps, target, cache'', exps''[target := exps''[op0] + exps''[op1]], registers'')
  {
    AdvancesTwice(cache, exps, target + 1, cache', exps', registers', cache'', exps'', registers'');
    AdvancesProduct(cache, exps, exps''[op0] + exps''[op1], target, cache'', exps'', registers'');
  }

  lemma CountSmall(n: nat, j: nat, had: set<nat>)
    requires 2 <= n < TABLE_SIZE && j == Table(n) && n !in had
    ensures |Steps(n) - had|
            == 1 + |Steps(n - j) - (had + {n})| + |Steps(j) - (had + {n} + Small(Steps(n - j)))|
    ensures had + Small(Steps(n)) == had + {n} + Small(Steps(n - j)) + Small(Steps(j))
  {
    hide Needed, Steps, TableRow;
    StepsInTable(n);
    StepsInTable(j);
    StepsInTable(n - j);
    NeededStep(n, n - j);
    assert Small(Needed(n - j)) == Needed(n - j);
    TwoParts(Needed(n), n, Needed(n - j), Needed(j), had);
  }

  lemma CountOdd(n: nat, had: set<nat>)
    requires n >= TABLE_SIZE && n % 2 == 1 && forall m :: m in had ==> m < TABLE_SIZE
    ensures 1 <= n % WINDOW && TABLE_SIZE <= n - n % WINDOW
    ensures |Steps(n) - had|
            == 1 + |Steps(n - n % WINDOW) - had|
               + |Steps(n % WINDOW) - (had + Small(Steps(n - n % WINDOW)))|
    ensures had + Small(Steps(n)) == had + Small(Steps(n - n % WINDOW)) + Small(Steps(n % WINDOW))
  {
    hide Needed, Steps;
    StepsOddUnfolds(n);
    var d := n % WINDOW;
    StepsInTable(d);
    TwoParts(Steps(n), n, Steps(n - d), Steps(d), had);
    assert Steps(d) - (had + Steps(n - d)) == Steps(d) - (had + Small(Steps(n - d)));
  }

  lemma CountEven(n: nat, had: set<nat>)
    requires n >= TABLE_SIZE && n % 2 == 0 && forall m :: m in had ==> m < TABLE_SIZE
    ensures |Steps(n) - had| == 1 + |Steps(n / 2) - had|
    ensures had + Small(Steps(n)) == had + Small(Steps(n / 2))
  {
    hide Needed;
    assert Steps(n) - had == {n} + (Steps(n / 2) - had);
  }

  datatype State = State(slots: seq<Slot>, products: seq<Product>, registers: nat)

  ghost function Snapshot(cache: array<Slot>, out: Emitter): State
    reads cache, out
  {
    State(cache[..], out.products, out.registers)
  }

  ghost predicate CanExpand(n: nat, x: nat, s: State) {
    && SingleAssignment(s.products, x)
    && Ready(s.slots, Exponents(s.products, x), s.registers, n)
  }

  /** From `s` to `s'` the register `target` is given x^n, with one product for each power not in the cache. */
  ghost predicate Expanded(n: nat, x: nat, s: State, s': State, target: nat)
    requires n >= 1
  {
    var exps, exps' := Exponents(s.products, x), Exponents(s'.products, x);
    && SingleAssignment(s'.products, x)
    && Advances(s.slots, exps, s.registers, s'.slots, exps', s'.registers)
    && Filled(s'.slots) == Filled(s.slots) + Small(Steps(n))
    && |s'.products| == |s.products| + |Steps(n) - Filled(s.slots)|
    && target in exps' && exps'[target] == n
  }

  lemma ExpandedAfter(n: nat, x: nat, s: State, s': State, op: nat, below: nat)
    requires n >= 1 && CanExpand(below, x, s) && Expanded(n, x, s, s', op)
    ensures CanExpand(below, x, s')
  {
    hide Needed, Steps, Small, Filled, Ready, Advances, Exponents, SingleAssignment;
    ReadyAfter(s.slots, Exponents(s.products, x), s.registers, n,
               s'.slots, Exponents(s'.products, x), s'.registers, below);
  }

  ghost function Marking(s: State, n: nat): State
    requires n < |s.slots|
  {
    State(s.slots[n := Held(s.registers)], s.products, s.registers + 1)
  }

  ghost function Taking(s: State): State {
    State(s.slots, s.products, s.registers + 1)
  }

  ghost function Emitting(s: State, p: Product): State {
    State(s.slots, s.products + [p], s.registers)
  }

  lemma CanMark(n: nat, x: nat, s: State, below: nat)
    requires CanExpand(n, x, s) && 1 <= n < |s.slots| && below < n
    ensures CanExpand(below, x, Marking(s, n))
  {
    hide Needed, Filled, Exponents, SingleAssignment, ClosedBelow, SlotDone;
    ReadyWithin(s.slots, Exponents(s.products, x), s.registers, n, s.registers, below);
  }

  lemma CanTake(n: nat, x: nat, s: State, below: nat)
    requires CanExpand(n, x, s) && below <= n
    ensures CanExpand(below, x, Taking(s))
  {
    hide Needed, Filled, Ready, Exponents, SingleAssignment;
    ReadyFor(s.slots, Exponents(s.products, x), s.registers, n, below);
  }

  lemma ExpandedHeld(n: nat, x: nat, s: State)
    requires 1 <= n < |s.slots| && CanExpand(n, x, s) && s.slots[n].Held?
    requires |s.slots| == TABLE_SIZE
    ensures Expanded(n, x, s, s, s.slots[n].reg)
  {
    hide Needed, Steps, Small, Filled, Ready, Advances, Exponents, SingleAssignment;
    NothingNew(s.slots, Exponents(s.products, x), s.registers, n);
  }

  lemma ExpandedSmall(n: nat, j: nat, x: nat, s: State, s1: State, op0: nat, s2: State, op1: nat)
    requires 2 <= n < TABLE_SIZE == |s.slots| && j == Table(n) && s.slots[n].Empty? && CanExpand(n, x, s)
    requires Expanded(n - j, x, Marking(s, n), s1, op0) && Expanded(j, x, s1, s2, op1)
    ensures Expanded(n, x, s, Emitting(s2, Product(s.registers, op0, op1)), s.registers)
  {
    hide Needed, Steps, Small, Filled, Advances, Exponents, SingleAssignment, TableRow, ClosedBelow, SlotDone;
    var exps, exps1, exps2 := Exponents(s.products, x), Exponents(s1.products, x), Exponents(s2.products, x);
    var m, target := Marking(s, n), s.registers;
    ReadySlots(s.slots, exps, target, n);
    ReadyWithin(s.slots, exps, target, n, target, n - 1);
    Join(m.slots, exps, target, s1.slots, exps1, s1.registers, op0, s2.slots, exps2, s2.registers, op1);
    ExponentsAppend(s2.products, x, Product(target, op0, op1));
    AdvancesSlot(s.slots, exps, n, target, s2.slots, exps2[target := n], s2.registers);
    CountSmall(n, j, Filled(s.slots));
  }

  lemma ExpandedOdd(n: nat, x: nat, s: State, s1: State, op0: nat, s2: State, op1: nat)
    requires n >= TABLE_SIZE && n % 2 == 1 && CanExpand(n, x, s) && n % WINDOW >= 1
    requires Expanded(n - n % WINDOW, x, Taking(s), s1, op0) && Expanded(n % WINDOW, x, s1, s2, op1)
    ensures Expanded(n, x, s, Emitting(s2, Product(s.registers, op0, op1)), s.registers)
  {
    hide Needed, Steps, Small, Filled, Ready, Advances, Exponents, SingleAssignment;
    var exps, exps1, exps2 := Exponents(s.products, x), Exponents(s1.products, x), Exponents(s2.products, x);
    var target := s.registers;
    ReadySlots(s.slots, exps, target, n);
    Join(s.slots, exps, target, s1.slots, exps1, s1.registers, op0, s2.slots, exps2, s2.registers, op1);
    ExponentsAppend(s2.products, x, Product(target, op0, op1));
    CountOdd(n, Filled(s.slots));
  }

  lemma ExpandedEven(n: nat, x: nat, s: State, s1: State, op: nat)
    requires n >= TABLE_SIZE && n % 2 == 0 && CanExpand(n, x, s)
    requires Expanded(n / 2, x, Taking(s), s1, op)
    ensures Expanded(n, x, s, Emitting(s1, Product(s.registers, op, op)), s.registers)
  {
    hide Needed, Steps, Small, Filled, Ready, Advances, Exponents, SingleAssignment;
    var exps, exps1 := Exponents(s.products, x), Exponents(s1.products, x);
    var target := s.registers;
    ReadySlots(s.slots, exps, target, n);
    AdvancesProduct(s.slots, exps, n, target, s1.slots, exps1, s1.registers);
    ExponentsAppend(s1.products, x, Product(target, op, op));
    CountEven(n, Filled(s.slots));
  }

  lemma CacheSlots(n: nat, x: nat, s: State)
    requires CanExpand(n, x, s)
    ensures |s.slots| == TABLE_SIZE && s.slots[1].Held?
  {
    hide Exponents, SingleAssignment, ClosedBelow;
  }

  /** A register given x^n, with one product for each power on the way not yet in the cache. */
  method ExpandPowi1(n: nat, ghost x: nat, cache: array<Slot>, out: Emitter) returns (target: nat)
    requires n >= 1 && CanExpand(n, x, Snapshot(cache, out))
    modifies cache, out
    ensures Expanded(n, x, old(Snapshot(cache, out)), Snapshot(cache, out), target)
    decreases n
  {
    hide CanExpand, Expanded, TableRow, Steps, Needed;
    ghost var s := Snapshot(cache, out);
    CacheSlots(n, x, s);
    var op0, op1;
    if n < TABLE_SIZE {
      if cache[n].Held? {
        ExpandedHeld(n, x, s);
        return cache[n].reg;
      }
      target := out.NewRegister();
      cache[n] := Held(target);
      var j := Table(n);
      CanMark(n, x, s, n - j);
      CanMark(n, x, s, j);
      assert Snapshot(cache, out) == Marking(s, n);
      op0 := ExpandPowi1(n - j, x, cache, out);
      ghost var s1 := Snapshot(cache, out);
      ExpandedAfter(n - j, x, Marking(s, n), s1, op0, j);
      op1 := ExpandPowi1(j, x, cache, out);
      ExpandedSmall(n, j, x, s, s1, op0, Snapshot(cache, out), op1);
    } else if n % 2 == 1 {
      target := out.NewRegister();
      StepsOddUnfolds(n);
      var digit := n % WINDOW;
      CanTake(n, x, s, n - digit);
      CanTake(n, x, s, digit);
      op0 := ExpandPowi1(n - digit, x, cache, out);
      ghost var s1 := Snapshot(cache, out);
      ExpandedAfter(n - digit, x, Taking(s), s1, op0, digit);
      op1 := ExpandPowi1(digit, x, cache, out);
      ExpandedOdd(n, x, s, s1, op0, Snapshot(cache, out), op1);
    } else {
      target := out.NewRegister();
      CanTake(n, x, s, n / 2);
      op0 := ExpandPowi1(n / 2, x, cache, out);
      op1 := op0;
      ExpandedEven(n, x, s, Snapshot(cache, out), op0);
    }
    ghost var s2 := Snapshot(cache, out);
    out.EmitProduct(target, op0, op1);
    assert Snapshot(cache, out) == Emitting(s2, Product(target, op0, op1));
  }

  /** What replaces a call: the constant 1, or products, and perhaps a division, from x's register. */
  datatype Expansion =
    | One
    | Chain(products: seq<Product>, result: nat, reciprocal: bool)

  /** What an expansion computes, from any contents of the registers. */
  ghost predicate Computes(e: Expansion, env: Registers, value: real) {
    match e
    case One => value == 1.0
    case Chain(products, result, reciprocal) =>
      var power := Run(products, env)(result);
      if reciprocal then power != 0.0 && value == 1.0 / power else value == power
  }

  ghost function Products(e: Expansion): nat {
    if e.One? then 0 else |e.products|
  }

  /** `e` leaves the power |n| of register `x` in its result, and takes the reciprocal for a negative `n`. */
  ghost predicate IsExpansion(x: nat, n: int, e: Expansion) {
    if n == 0 then e == One
    else
      && e.Chain? && e.reciprocal == (n < 0)
      && SingleAssignment(e.products, x)
      && e.result in Exponents(e.products, x)
      && Exponents(e.products, x)[e.result] == Magnitude(n)
  }

  /** x^n by as many products as there are powers to make. */
  method ExpandPowi(x: nat, n: int) returns (e: Expansion)
    ensures IsExpansion(x, n, e)
    ensures n == 0 ==> Products(e) == 0
    ensures n != 0 ==> Products(e) == |Steps(Magnitude(n)) - {1}|
  {
    hide Needed, Steps, Small, Ready, Exponents, SingleAssignment, Advances, TableRow, ClosedBelow, Filled;
    if n == 0 {
      return One;
    }
    var cache := new Slot[TABLE_SIZE](i => Empty);
    cache[1] := Held(x);
    var out := new Emitter(x + 1);
    NoProducts(x, (r: nat) => 0.0);
    ReadyFirst(cache[..], x, Magnitude(n));
    var result := ExpandPowi1(Magnitude(n), x, cache, out);
    e := Chain(out.products, result, n < 0);
  }

  lemma ReadyFirst(cache: seq<Slot>, x: nat, n: nat)
    requires |cache| == TABLE_SIZE && cache[1] == Held(x)
    requires forall m :: 0 <= m < TABLE_SIZE && m != 1 ==> cache[m].Empty?
    ensures Ready(cache, map[x := 1], x + 1, n) && Filled(cache) == {1} && SingleAssignment([], x)
  {
    hide Needed;
    OnlyOne();
    assert Filled(cache) == {1};
  }

  /** The expansion computes x^n, and 1/x^-n where n is negative, for every base but 0. */
  lemma ExpansionComputes(x: nat, n: int, e: Expansion, env: Registers)
    requires IsExpansion(x, n, e)
    requires n < 0 ==> env(x) != 0.0
    ensures n >= 0 ==> Computes(e, env, Power(env(x), n))
    ensures n < 0 ==> Power(env(x), -n) != 0.0 && Computes(e, env, 1.0 / Power(env(x), -n))
  {
    hide Exponents, SingleAssignment, Power, Run;
    if n == 0 {
      PowerZero(env(x));
    } else {
      RunComputes(e.products, x, env, e.result);
      if n < 0 {
        PowerNonzero(env(x), -n);
      }
    }
  }

  lemma PowerZero(x: real)
    ensures Power(x, 0) == 1.0
  {}

  lemma {:induction false} PowerNonzero(x: real, n: nat)
    requires x != 0.0
    ensures Power(x, n) != 0.0
  {
    if n > 0 {
      PowerNonzero(x, n - 1);
      assert x * Power(x, n - 1) != 0.0;
    }
  }

  const MAX_MULTS: nat := 2 * 64 - 2

  /** A call of powi with a constant exponent, either expanded or left to the library. */
  datatype Call = Inline(expansion: Expansion) | Library

  /** Whether powi(x, n) is worth expanding: the cost decides, and the cost is what is then emitted. */
  method ExpandBuiltinPowi(x: nat, n: int, optimizeSize: bool) returns (r: Call)
    requires -0x8000_0000_0000_0000 <= n < 0x8000_0000_0000_0000
    ensures r.Library? <==> optimizeSize && !(-1 <= n <= 2)
    ensures r.Inline? ==> IsExpansion(x, n, r.expansion) && Products(r.expansion) <= MAX_MULTS
  {
    hide Steps, Exponents, SingleAssignment, Bits, IsExpansion, Products;
    var expand := -1 <= n <= 2;
    if !expand && !optimizeSize {
      var cost := PowiCost(n);
      BitsOfWord(Magnitude(n));
      expand := cost <= MAX_MULTS;
    }
    if expand {
      var e := ExpandPowi(x, n);
      if n != 0 {
        CostBound(Magnitude(n));
        BitsOfWord(Magnitude(n));
      }
      r := Inline(e);
    } else {
      r := Library;
    }
  }

  lemma BitsShift(n: nat)
    requires n > 0
    ensures Bits(256 * n) == 8 + Bits(n)
  {
    hide Bits;
    BitsDouble(n);
    BitsDouble(2 * n);
    BitsDouble(4 * n);
    BitsDouble(8 * n);
    BitsDouble(16 * n);
    BitsDouble(32 * n);
    BitsDouble(64 * n);
    BitsDouble(128 * n);
  }

  lemma BitsDouble(n: nat)
    requires n > 0
    ensures Bits(2 * n) == 1 + Bits(n)
  {}

  lemma BitsOfByte()
    ensures Bits(0x80) == 8
  {}

  lemma BitsOfWord(n: nat)
    requires n <= 0x8000_0000_0000_0000
    ensures Bits(n) <= 64
  {
    hide Bits;
    BitsMonotone(n, 0x8000_0000_0000_0000);
    BitsShift(0x80_0000_0000_0000);
    BitsShift(0x8000_0000_0000);
    BitsShift(0x80_0000_0000);
    BitsShift(0x8000_0000);
    BitsShift(0x80_0000);
    BitsShift(0x8000);
    BitsShift(0x80);
    BitsOfByte();
  }
}
