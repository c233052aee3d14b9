/** The power tree: which earlier power each small power is built from. */
module PowiTable {
  const TABLE_SIZE: nat := 256

  function TableRow(row: nat): (powers: seq<nat>)
    ensures |powers| == 8
  {
    match row
    case 0 => [0, 1, 1, 2, 2, 3, 3, 4]
    case 1 => [4, 6, 5, 6, 6, 10, 7, 9]
    case 2 => [8, 16, 9, 16, 10, 12, 11, 13]
    case 3 => [12, 17, 13, 18, 14, 24, 15, 26]
    case 4 => [16, 17, 17, 19, 18, 33, 19, 26]
    case 5 => [20, 25, 21, 40, 22, 27, 23, 44]
    case 6 => [24, 32, 25, 34, 26, 29, 27, 44]
    case 7 => [28, 31, 29, 34, 30, 60, 31, 36]
    case 8 => [32, 64, 33, 34, 34, 46, 35, 37]
    case 9 => [36, 65, 37, 50, 38, 48, 39, 69]
    case 10 => [40, 49, 41, 43, 42, 51, 43, 58]
    case 11 => [44, 64, 45, 47, 46, 59, 47, 76]
    case 12 => [48, 65, 49, 66, 50, 67, 51, 66]
    case 13 => [52, 70, 53, 74, 54, 104, 55, 74]
    case 14 => [56, 64, 57, 69, 58, 78, 59, 68]
    case 15 => [60, 61, 61, 80, 62, 75, 63, 68]
    case 16 => [64, 65, 65, 128, 66, 129, 67, 90]
    case 17 => [68, 73, 69, 131, 70, 94, 71, 88]
    case 18 => [72, 128, 73, 98, 74, 132, 75, 121]
    case 19 => [76, 102, 77, 124, 78, 132, 79, 106]
    case 20 => [80, 97, 81, 160, 82, 99, 83, 134]
    case 21 => [84, 86, 85, 95, 86, 160, 87, 100]
    case 22 => [88, 113, 89, 98, 90, 107, 91, 122]
    case 23 => [92, 111, 93, 102, 94, 126, 95, 150]
    case 24 => [96, 128, 97, 130, 98, 133, 99, 195]
    case 25 => [100, 128, 101, 123, 102, 164, 103, 138]
    case 26 => [104, 145, 105, 146, 106, 109, 107, 149]
    case 27 => [108, 200, 109, 146, 110, 170, 111, 157]
    case 28 => [112, 128, 113, 130, 114, 182, 115, 132]
    case 29 => [116, 200, 117, 132, 118, 158, 119, 206]
    case 30 => [120, 240, 121, 162, 122, 147, 123, 152]
    case _ => [124, 166, 125, 214, 126, 138, 127, 153]
  }

  predicate Splits(n: nat, j: nat) {
    && 1 <= j < n
    && (n % 2 == 0 ==> j == n / 2)
  }

  lemma Splits0(n: nat)
    requires 2 <= n < 64
    ensures Splits(n, TableRow(n / 8)[n % 8])
  {
    if
    case n / 8 == 0 =>
    case n / 8 == 1 =>
    case n / 8 == 2 =>
    case n / 8 == 3 =>
    case n / 8 == 4 =>
    case n / 8 == 5 =>
    case n / 8 == 6 =>
    case n / 8 == 7 =>
  }

  lemma Splits1(n: nat)
    requires 64 <= n < 128
    ensures Splits(n, TableRow(n / 8)[n % 8])
  {
    if
    case n / 8 == 8 =>
    case n / 8 == 9 =>
    case n / 8 == 10 =>
    case n / 8 == 11 =>
    case n / 8 == 12 =>
    case n / 8 == 13 =>
    case n / 8 == 14 =>
    case n / 8 == 15 =>
  }

  lemma Splits2(n: nat)
    requires 128 <= n < 192
    ensures Splits(n, TableRow(n / 8)[n % 8])
  {
    if
    case n / 8 == 16 =>
    case n / 8 == 17 =>
    case n / 8 == 18 =>
    case n / 8 == 19 =>
    case n / 8 == 20 =>
    case n / 8 == 21 =>
    case n / 8 == 22 =>
    case n / 8 == 23 =>
  }

  lemma Splits3(n: nat)
    requires 192 <= n < 256
    ensures Splits(n, TableRow(n / 8)[n % 8])
  {
    if
    case n / 8 == 24 =>
    case n / 8 == 25 =>
    case n / 8 == 26 =>
    case n / 8 == 27 =>
    case n / 8 == 28 =>
    case n / 8 == 29 =>
    case n / 8 == 30 =>
    case n / 8 == 31 =>
  }

  /** Both parts of a split are smaller powers, and an even power splits in half. */
  lemma SplitsAll(n: nat)
    requires 2 <= n < TABLE_SIZE
    ensures Splits(n, TableRow(n / 8)[n % 8])
  {
    if
    case n < 64 => Splits0(n);
    case 64 <= n < 128 => Splits1(n);
    case 128 <= n < 192 => Splits2(n);
    case n >= 192 => Splits3(n);
  }

  /** x^n is x^Table(n) times x^(n - Table(n)). */
  function Table(n: nat): (j: nat)
    requires n < TABLE_SIZE
    ensures n >= 2 ==> Splits(n, j)
  {
    if n >= 2 then SplitsAll(n); TableRow(n / 8)[n % 8] else TableRow(0)[n]
  }

  // ---- the powers needed for one power ----

  /** All the powers the table leads to from `n`, with `n` and 1. */
  ghost function Needed(n: nat): (powers: set<nat>)
    requires 1 <= n < TABLE_SIZE
    ensures {1, n} <= powers
    ensures forall m :: m in powers ==> 1 <= m <= n
  {
    if n == 1 then {1} else {n} + Needed(Table(n)) + Needed(n - Table(n))
  }

  /** Needing is transitive. */
  lemma {:induction false} NeededClosed(n: nat, m: nat)
    requires 1 <= n < TABLE_SIZE && m in Needed(n)
    ensures Needed(m) <= Needed(n)
  {
    if m != n {
      if m in Needed(Table(n)) {
        NeededClosed(Table(n), m);
      } else {
        NeededClosed(n - Table(n), m);
      }
    }
  }

  lemma NeededUnfolds(n: nat, j: nat)
    requires 2 <= n < TABLE_SIZE && 1 <= j < n && Table(n) == j
    ensures Needed(n) == {n} + (Needed(j) + Needed(n - j))
  {
    hide TableRow, Splits;
    assert Needed(n) == {n} + Needed(j) + Needed(n - j);
  }

  lemma NeededStep(n: nat, j: nat)
    requires 2 <= n < TABLE_SIZE && 1 <= j < n && (Table(n) == j || Table(n) == n - j)
    ensures Needed(n) == {n} + Needed(j) + Needed(n - j)
  {
    hide Needed, TableRow, Splits;
    NeededUnfolds(n, Table(n));
    assert Needed(j) + Needed(n - j) == Needed(n - j) + Needed(j);
  }

  lemma NeededEven(n: nat)
    requires 1 <= n && 2 * n < TABLE_SIZE
    ensures Needed(2 * n) == {2 * n} + Needed(n) && 2 * n !in Needed(n)
  {
    hide Needed, TableRow;
    assert Table(2 * n) == n;
    NeededStep(2 * n, n);
  }

  // ---- how many they are ----

  predicate IsNeeded(m: nat, n: nat)
    requires 1 <= m && 1 <= n < TABLE_SIZE
  {
    m == n || (m < n && (IsNeeded(m, Table(n)) || IsNeeded(m, n - Table(n))))
  }

  /** At most this many powers are needed for `m` and not for `n`. */
  function Missing(m: nat, n: nat): nat
    requires 1 <= m < TABLE_SIZE && 1 <= n < TABLE_SIZE
  {
    if m == 1 || IsNeeded(m, n) then 0
    else if Table(m) == m - Table(m) then 1 + Missing(Table(m), n)
    else 1 + Missing(Table(m), n) + Missing(m - Table(m), n)
  }

  /** At most this many powers besides 1 are needed for `n`. */
  function Length(n: nat): nat
    requires 1 <= n < TABLE_SIZE
  {
    if n == 1 then 0
    else if 2 * Table(n) >= n then 1 + Length(Table(n)) + Missing(n - Table(n), Table(n))
    else 1 + Length(n - Table(n)) + Missing(Table(n), n - Table(n))
  }

  lemma {:induction false} IsNeededRight(m: nat, n: nat)
    requires 1 <= m && 1 <= n < TABLE_SIZE
    ensures IsNeeded(m, n) ==> m in Needed(n)
  {
    if m < n {
      IsNeededRight(m, Table(n));
      IsNeededRight(m, n - Table(n));
    }
  }

  lemma {:induction false} MissingBound(m: nat, n: nat)
    requires 1 <= m < TABLE_SIZE && 1 <= n < TABLE_SIZE
    ensures |Needed(m) - Needed(n)| <= Missing(m, n)
  {
    hide TableRow, Needed, IsNeeded;
    if m == 1 {
      OnlyOne();
      assert Needed(m) - Needed(n) == {};
    } else if IsNeeded(m, n) {
      IsNeededRight(m, n);
      NeededClosed(n, m);
      assert Needed(m) - Needed(n) == {};
    } else {
      var j := Table(m);
      MissingBound(j, n);
      MissingBound(m - j, n);
      NeededStep(m, j);
      MoreMissing(m, Needed(j), Needed(m - j), Needed(n));
    }
  }

  lemma MoreMissing(m: nat, a: set<nat>, b: set<nat>, c: set<nat>)
    ensures |{m} + a + b - c| <= 1 + |a - c| + |b - c|
    ensures a == b ==> |{m} + a + b - c| <= 1 + |a - c|
  {
    var d, e := a - c, b - c;
    SizeOfUnion(d, e);
    SizeOfUnion({m}, d + e);
    SizeOfPart({m} + a + b - c, {m} + (d + e));
    if a == b {
      assert d + e == d;
    }
  }

  lemma LongerBy(n: nat, a: set<nat>, b: set<nat>)
    ensures |{n} + a + b - {1}| <= 1 + |a - {1}| + |b - a|
  {
    var d, e := a - {1}, b - a;
    SizeOfUnion(d, e);
    SizeOfUnion({n}, d + e);
    SizeOfPart({n} + a + b - {1}, {n} + (d + e));
  }

  lemma {:induction false} LengthBound(n: nat)
    requires 1 <= n < TABLE_SIZE
    ensures |Needed(n) - {1}| <= Length(n)
  {
    hide TableRow, Missing, Needed;
    if n == 1 {
      OnlyOne();
      assert Needed(n) - {1} == {};
    } else {
      var j := if 2 * Table(n) >= n then Table(n) else n - Table(n);
      LengthBound(j);
      MissingBound(n - j, j);
      NeededStep(n, j);
      LongerBy(n, Needed(j), Needed(n - j));
    }
  }

  lemma OnlyOne()
    ensures Needed(1) == {1}
  {}

  lemma SizeOfUnion<T>(a: set<T>, b: set<T>)
    ensures |a + b| <= |a| + |b|
  {
    assert |a + b| == |a| + |b| - |a * b|;
  }

  lemma {:induction false} SizeOfPart<T>(a: set<T>, b: set<T>)
    requires a <= b
    ensures |a| <= |b|
  {
    assert b == a + (b - a);
  }

  // ---- the bound, entry by entry ----

  /** The number of binary digits. */
  function Bits(n: nat): nat {
    if n == 0 then 0 else 1 + Bits(n / 2)
  }

  // The entries, one by one.

  lemma Entries0()
    ensures Table(0) == 0 && Table(1) == 1 && Table(2) == 1 && Table(3) == 2 && Table(4) == 2 && Table(5) == 3 && Table(6) == 3 && Table(7) == 4
    ensures Table(8) == 4 && Table(9) == 6 && Table(10) == 5 && Table(11) == 6 && Table(12) == 6 && Table(13) == 10 && Table(14) == 7 && Table(15) == 9
  {
    hide Splits;
  }

  lemma Entries1()
    ensures Table(16) == 8 && Table(17) == 16 && Table(18) == 9 && Table(19) == 16 && Table(20) == 10 && Table(21) == 12 && Table(22) == 11 && Table(23) == 13
    ensures Table(24) == 12 && Table(25) == 17 && Table(26) == 13 && Table(27) == 18 && Table(28) == 14 && Table(29) == 24 && Table(30) == 15 && Table(31) == 26
  {
    hide Splits;
  }

  lemma Entries2()
    ensures Table(32) == 16 && Table(33) == 17 && Table(34) == 17 && Table(35) == 19 && Table(36) == 18 && Table(37) == 33 && Table(38) == 19 && Table(39) == 26
    ensures Table(40) == 20 && Table(41) == 25 && Table(42) == 21 && Table(43) == 40 && Table(44) == 22 && Table(45) == 27 && Table(46) == 23 && Table(47) == 44
  {
    hide Splits;
  }

  lemma Entries3()
    ensures Table(48) == 24 && Table(49) == 32 && Table(50) == 25 && Table(51) == 34 && Table(52) == 26 && Table(53) == 29 && Table(54) == 27 && Table(55) == 44
    ensures Table(56) == 28 && Table(57) == 31 && Table(58) == 29 && Table(59) == 34 && Table(60) == 30 && Table(61) == 60 && Table(62) == 31 && Table(63) == 36
  {
    hide Splits;
  }

  lemma Entries4()
    ensures Table(64) == 32 && Table(65) == 64 && Table(66) == 33 && Table(67) == 34 && Table(68) == 34 && Table(69) == 46 && Table(70) == 35 && Table(71) == 37
    ensures Table(72) == 36 && Table(73) == 65 && Table(74) == 37 && Table(75) == 50 && Table(76) == 38 && Table(77) == 48 && Table(78) == 39 && Table(79) == 69
  {
    hide Splits;
  }

  lemma Entries5()
    ensures Table(80) == 40 && Table(81) == 49 && Table(82) == 41 && Table(83) == 43 && Table(84) == 42 && Table(85) == 51 && Table(86) == 43 && Table(87) == 58
    ensures Table(88) == 44 && Table(89) == 64 && Table(90) == 45 && Table(91) == 47 && Table(92) == 46 && Table(93) == 59 && Table(94) == 47 && Table(95) == 76
  {
    hide Splits;
  }

  lemma Entries6()
    ensures Table(96) == 48 && Table(97) == 65 && Table(98) == 49 && Table(99) == 66 && Table(100) == 50 && Table(101) == 67 && Table(102) == 51 && Table(103) == 66
    ensures Table(104) == 52 && Table(105) == 70 && Table(106) == 53 && Table(107) == 74 && Table(108) == 54 && Table(109) == 104 && Table(110) == 55 && Table(111) == 74
  {
    hide Splits;
  }

  lemma Entries7()
    ensures Table(112) == 56 && Table(113) == 64 && Table(114) == 57 && Table(115) == 69 && Table(116) == 58 && Table(117) == 78 && Table(118) == 59 && Table(119) == 68
    ensures Table(120) == 60 && Table(121) == 61 && Table(122) == 61 && Table(123) == 80 && Table(124) == 62 && Table(125) == 75 && Table(126) == 63 && Table(127) == 68
  {
    hide Splits;
  }

  lemma Entries8()
    ensures Table(128) == 64 && Table(129) == 65 && Table(130) == 65 && Table(131) == 128 && Table(132) == 66 && Table(133) == 129 && Table(134) == 67 && Table(135) == 90
    ensures Table(136) == 68 && Table(137) == 73 && Table(138) == 69 && Table(139) == 131 && Table(140) == 70 && Table(141) == 94 && Table(142) == 71 && Table(143) == 88
  {
    hide Splits;
  }

  lemma Entries9()
    ensures Table(144) == 72 && Table(145) == 128 && Table(146) == 73 && Table(147) == 98 && Table(148) == 74 && Table(149) == 132 && Table(150) == 75 && Table(151) == 121
    ensures Table(152) == 76 && Table(153) == 102 && Table(154) == 77 && Table(155) == 124 && Table(156) == 78 && Table(157) == 132 && Table(158) == 79 && Table(159) == 106
  {
    hide Splits;
  }

  lemma Entries10()
    ensures Table(160) == 80 && Table(161) == 97 && Table(162) == 81 && Table(163) == 160 && Table(164) == 82 && Table(165) == 99 && Table(166) == 83 && Table(167) == 134
    ensures Table(168) == 84 && Table(169) == 86 && Table(170) == 85 && Table(171) == 95 && Table(172) == 86 && Table(173) == 160 && Table(174) == 87 && Table(175) == 100
  {
    hide Splits;
  }

  lemma Entries11()
    ensures Table(176) == 88 && Table(177) == 113 && Table(178) == 89 && Table(179) == 98 && Table(180) == 90 && Table(181) == 107 && Table(182) == 91 && Table(183) == 122
    ensures Table(184) == 92 && Table(185) == 111 && Table(186) == 93 && Table(187) == 102 && Table(188) == 94 && Table(189) == 126 && Table(190) == 95 && Table(191) == 150
  {
    hide Splits;
  }

  lemma Entries12()
    ensures Table(192) == 96 && Table(193) == 128 && Table(194) == 97 && Table(195) == 130 && Table(196) == 98 && Table(197) == 133 && Table(198) == 99 && Table(199) == 195
    ensures Table(200) == 100 && Table(201) == 128 && Table(202) == 101 && Table(203) == 123 && Table(204) == 102 && Table(205) == 164 && Table(206) == 103 && Table(207) == 138
  {
    hide Splits;
  }

  lemma Entries13()
    ensures Table(208) == 104 && Table(209) == 145 && Table(210) == 105 && Table(211) == 146 && Table(212) == 106 && Table(213) == 109 && Table(214) == 107 && Table(215) == 149
    ensures Table(216) == 108 && Table(217) == 200 && Table(218) == 109 && Table(219) == 146 && Table(220) == 110 && Table(221) == 170 && Table(222) == 111 && Table(223) == 157
  {
    hide Splits;
  }

  lemma Entries14()
    ensures Table(224) == 112 && Table(225) == 128 && Table(226) == 113 && Table(227) == 130 && Table(228) == 114 && Table(229) == 182 && Table(230) == 115 && Table(231) == 132
    ensures Table(232) == 116 && Table(233) == 200 && Table(234) == 117 && Table(235) == 132 && Table(236) == 118 && Table(237) == 158 && Table(238) == 119 && Table(239) == 206
  {
    hide Splits;
  }

  lemma Entries15()
    ensures Table(240) == 120 && Table(241) == 240 && Table(242) == 121 && Table(243) == 162 && Table(244) == 122 && Table(245) == 147 && Table(246) == 123 && Table(247) == 152
    ensures Table(248) == 124 && Table(249) == 166 && Table(250) == 125 && Table(251) == 214 && Table(252) == 126 && Table(253) == 138 && Table(254) == 127 && Table(255) == 153
  {
    hide Splits;
  }

  // The odd powers, each from the entries it leads to.

  lemma Odd1()
    ensures Length(1) <= 0 && Length(3) <= 2 && Length(5) <= 4 && Length(7) <= 4
  {
    hide TableRow, Splits;
    Entries0();
  }

  lemma Odd9()
    ensures Length(9) <= 6 && Length(11) <= 6 && Length(13) <= 6 && Length(15) <= 6
  {
    hide TableRow, Splits;
    Entries0();
  }

  lemma Odd17()
    ensures Length(17) <= 8 && Length(19) <= 8 && Length(21) <= 8 && Length(23) <= 8
  {
    hide TableRow, Splits;
    Entries0(); Entries1();
  }

  lemma Odd25()
    ensures Length(25) <= 8 && Length(27) <= 8
  {
    hide TableRow, Splits;
    Entries0(); Entries1();
  }

  lemma Odd29()
    ensures Length(29) <= 8 && Length(31) <= 8
  {
    hide TableRow, Splits;
    Entries0(); Entries1();
  }

  lemma Odd33()
    ensures Length(33) <= 9 && Length(35) <= 9
  {
    hide TableRow, Splits;
    Entries0(); Entries1(); Entries2();
  }

  lemma Odd37()
    ensures Length(37) <= 9 && Length(39) <= 9
  {
    hide TableRow, Splits;
    Entries0(); Entries1(); Entries2();
  }

  lemma Odd41()
    ensures Length(41) <= 9 && Length(43) <= 9
  {
    hide TableRow, Splits;
    Entries0(); Entries1(); Entries2();
  }

  lemma Odd45()
    ensures Length(45) <= 9 && Length(47) <= 9
  {
    hide TableRow, Splits;
    Entries0(); Entries1(); Entries2();
  }

  lemma Odd49()
    ensures Length(49) <= 9 && Length(51) <= 9
  {
    hide TableRow, Splits;
    Entries0(); Entries1(); Entries2(); Entries3();
  }

  lemma Odd53()
    ensures Length(53) <= 9 && Length(55) <= 9
  {
    hide TableRow, Splits;
    Entries0(); Entries1(); Entries2(); Entries3();
  }

  lemma Odd57()
    ensures Length(57) <= 9 && Length(59) <= 9
  {
    hide TableRow, Splits;
    Entries0(); Entries1(); Entries2(); Entries3();
  }

  lemma Odd61()
    ensures Length(61) <= 9 && Length(63) <= 9
  {
    hide TableRow, Splits;
    Entries0(); Entries1(); Entries2(); Entries3();
  }

  lemma Odd65()
    ensures Length(65) <= 11 && Length(67) <= 11
  {
    hide TableRow, Splits;
    Entries0(); Entries1(); Entries2(); Entries4();
  }

  lemma Odd69()
    ensures Length(69) <= 11 && Length(71) <= 11
  {
    hide TableRow, Splits;
    Entries0(); Entries1(); Entries2(); Entries4();
  }

  lemma Odd73()
    ensures Length(73) <= 11 && Length(75) <= 11
  {
    hide TableRow, Splits;
    Entries0(); Entries1(); Entries2(); Entries3(); Entries4();
  }

  lemma Odd77()
    ensures Length(77) <= 11 && Length(79) <= 11
  {
    hide TableRow, Splits;
    Entries0(); Entries1(); Entries2(); Entries3(); Entries4();
  }

  lemma Odd81()
    ensures Length(81) <= 11 && Length(83) <= 11
  {
    hide TableRow, Splits;
    Entries0(); Entries1(); Entries2(); Entries3(); Entries5();
  }

  lemma Odd85()
    ensures Length(85) <= 11 && Length(87) <= 11
  {
    hide TableRow, Splits;
    Entries0(); Entries1(); Entries2(); Entries3(); Entries5();
  }

  lemma Odd89()
    ensures Length(89) <= 11 && Length(91) <= 11
  {
    hide TableRow, Splits;
    Entries0(); Entries1(); Entries2(); Entries4(); Entries5();
  }

  lemma Odd93()
    ensures Length(93) <= 11 && Length(95) <= 11
  {
    hide TableRow, Splits;
    Entries0(); Entries1(); Entries2(); Entries3(); Entries4(); Entries5();
  }

  lemma Odd97()
    ensures Length(97) <= 11 && Length(99) <= 11
  {
    hide TableRow, Splits;
    Entries0(); Entries1(); Entries2(); Entries4(); Entries6();
  }

  lemma Odd101()
    ensures Length(101) <= 11 && Length(103) <= 11
  {
    hide TableRow, Splits;
    Entries0(); Entries1(); Entries2(); Entries4(); Entries6();
  }

  lemma Odd105()
    ensures Length(105) <= 11 && Length(107) <= 11
  {
    hide TableRow, Splits;
    Entries0(); Entries1(); Entries2(); Entries4(); Entries6();
  }

  lemma Odd109()
    ensures Length(109) <= 11
  {
    hide TableRow, Splits;
    Entries0(); Entries1(); Entries3(); Entries6();
  }

  lemma Odd111()
    ensures Length(111) <= 11
  {
    hide TableRow, Splits;
    Entries0(); Entries1(); Entries2(); Entries4(); Entries6();
  }

  lemma Odd113()
    ensures Length(113) <= 11
  {
    hide TableRow, Splits;
    Entries0(); Entries1(); Entries2(); Entries3(); Entries4(); Entries7();
  }

  lemma Odd115()
    ensures Length(115) <= 11
  {
    hide TableRow, Splits;
    Entries0(); Entries1(); Entries2(); Entries4(); Entries7();
  }

  lemma Odd117()
    ensures Length(117) <= 11
  {
    hide TableRow, Splits;
    Entries0(); Entries1(); Entries2(); Entries4(); Entries7();
  }

  lemma Odd119()
    ensures Length(119) <= 11
  {
    hide TableRow, Splits;
    Entries0(); Entries1(); Entries2(); Entries3(); Entries4(); Entries7();
  }

  lemma Odd121()
    ensures Length(121) <= 11 && Length(123) <= 11
  {
    hide TableRow, Splits;
    Entries0(); Entries1(); Entries2(); Entries3(); Entries5(); Entries7();
  }

  lemma Odd125()
    ensures Length(125) <= 11 && Length(127) <= 11
  {
    hide TableRow, Splits;
    Entries0(); Entries1(); Entries2(); Entries3(); Entries4(); Entries7();
  }

  lemma Odd129()
    ensures Length(129) <= 13 && Length(131) <= 13
  {
    hide TableRow, Splits;
    Entries0(); Entries1(); Entries2(); Entries4(); Entries8();
  }

  lemma Odd133()
    ensures Length(133) <= 13
  {
    hide TableRow, Splits;
    Entries0(); Entries1(); Entries2(); Entries4(); Entries8();
  }

  lemma Odd135()
    ensures Length(135) <= 13
  {
    hide TableRow, Splits;
    Entries0(); Entries1(); Entries2(); Entries5(); Entries8();
  }

  lemma Odd137()
    ensures Length(137) <= 13
  {
    hide TableRow, Splits;
    Entries0(); Entries1(); Entries2(); Entries4(); Entries8();
  }

  lemma Odd139()
    ensures Length(139) <= 13
  {
    hide TableRow, Splits;
    Entries0(); Entries1(); Entries2(); Entries4(); Entries8();
  }

  lemma Odd141()
    ensures Length(141) <= 13
  {
    hide TableRow, Splits;
    Entries0(); Entries1(); Entries2(); Entries5(); Entries8();
  }

  lemma Odd143()
    ensures Length(143) <= 13
  {
    hide TableRow, Splits;
    Entries0(); Entries1(); Entries2(); Entries3(); Entries5(); Entries8();
  }

  lemma Odd145()
    ensures Length(145) <= 13
  {
    hide TableRow, Splits;
    Entries0(); Entries1(); Entries2(); Entries4(); Entries8(); Entries9();
  }

  lemma Odd147()
    ensures Length(147) <= 13
  {
    hide TableRow, Splits;
    Entries0(); Entries1(); Entries2(); Entries3(); Entries6(); Entries9();
  }

  lemma Odd149()
    ensures Length(149) <= 13
  {
    hide TableRow, Splits;
    Entries0(); Entries1(); Entries2(); Entries4(); Entries8(); Entries9();
  }

  lemma Odd151()
    ensures Length(151) <= 13
  {
    hide TableRow, Splits;
    Entries0(); Entries1(); Entries3(); Entries7(); Entries9();
  }

  lemma Odd153()
    ensures Length(153) <= 13
  {
    hide TableRow, Splits;
    Entries0(); Entries1(); Entries2(); Entries3(); Entries6(); Entries9();
  }

  lemma Odd155()
    ensures Length(155) <= 13
  {
    hide TableRow, Splits;
    Entries0(); Entries1(); Entries3(); Entries7(); Entries9();
  }

  lemma Odd157()
    ensures Length(157) <= 13
  {
    hide TableRow, Splits;
    Entries0(); Entries1(); Entries2(); Entries4(); Entries8(); Entries9();
  }

  lemma Odd159()
    ensures Length(159) <= 13
  {
    hide TableRow, Splits;
    Entries0(); Entries1(); Entries3(); Entries6(); Entries9();
  }

  lemma Odd161()
    ensures Length(161) <= 13
  {
    hide TableRow, Splits;
    Entries0(); Entries1(); Entries2(); Entries4(); Entries6(); Entries10();
  }

  lemma Odd163()
    ensures Length(163) <= 13
  {
    hide TableRow, Splits;
    Entries0(); Entries1(); Entries2(); Entries5(); Entries10();
  }

  lemma Odd165()
    ensures Length(165) <= 13
  {
    hide TableRow, Splits;
    Entries0(); Entries1(); Entries2(); Entries4(); Entries6(); Entries10();
  }

  lemma Odd167()
    ensures Length(167) <= 13
  {
    hide TableRow, Splits;
    Entries0(); Entries1(); Entries2(); Entries4(); Entries8(); Entries10();
  }

  lemma Odd169()
    ensures Length(169) <= 13
  {
    hide TableRow, Splits;
    Entries0(); Entries1(); Entries2(); Entries5(); Entries10();
  }

  lemma Odd171()
    ensures Length(171) <= 13
  {
    hide TableRow, Splits;
    Entries0(); Entries1(); Entries2(); Entries4(); Entries5(); Entries10();
  }

  lemma Odd173()
    ensures Length(173) <= 13
  {
    hide TableRow, Splits;
    Entries0(); Entries1(); Entries2(); Entries5(); Entries10();
  }

  lemma Odd175()
    ensures Length(175) <= 13
  {
    hide TableRow, Splits;
    Entries0(); Entries1(); Entries3(); Entries4(); Entries6(); Entries10();
  }

  lemma Odd177()
    ensures Length(177) <= 13
  {
    hide TableRow, Splits;
    Entries0(); Entries1(); Entries2(); Entries3(); Entries4(); Entries7(); Entries11();
  }

  lemma Odd179()
    ensures Length(179) <= 13
  {
    hide TableRow, Splits;
    Entries0(); Entries1(); Entries2(); Entries3(); Entries5(); Entries6(); Entries11();
  }

  lemma Odd181()
    ensures Length(181) <= 13
  {
    hide TableRow, Splits;
    Entries0(); Entries1(); Entries2(); Entries4(); Entries6(); Entries11();
  }

  lemma Odd183()
    ensures Length(183) <= 13
  {
    hide TableRow, Splits;
    Entries0(); Entries1(); Entries3(); Entries7(); Entries11();
  }

  lemma Odd185()
    ensures Length(185) <= 13
  {
    hide TableRow, Splits;
    Entries0(); Entries1(); Entries2(); Entries4(); Entries6(); Entries11();
  }

  lemma Odd187()
    ensures Length(187) <= 13
  {
    hide TableRow, Splits;
    Entries0(); Entries1(); Entries2(); Entries3(); Entries5(); Entries6(); Entries11();
  }

  lemma Odd189()
    ensures Length(189) <= 13
  {
    hide TableRow, Splits;
    Entries0(); Entries1(); Entries2(); Entries3(); Entries7(); Entries11();
  }

  lemma Odd191()
    ensures Length(191) <= 13
  {
    hide TableRow, Splits;
    Entries0(); Entries1(); Entries2(); Entries3(); Entries4(); Entries9(); Entries11();
  }

  lemma Odd193()
    ensures Length(193) <= 13
  {
    hide TableRow, Splits;
    Entries0(); Entries1(); Entries2(); Entries4(); Entries8(); Entries12();
  }

  lemma Odd195()
    ensures Length(195) <= 13
  {
    hide TableRow, Splits;
    Entries0(); Entries1(); Entries2(); Entries4(); Entries8(); Entries12();
  }

  lemma Odd197()
    ensures Length(197) <= 13
  {
    hide TableRow, Splits;
    Entries0(); Entries1(); Entries2(); Entries4(); Entries8(); Entries12();
  }

  lemma Odd199()
    ensures Length(199) <= 13
  {
    hide TableRow, Splits;
    Entries0(); Entries1(); Entries2(); Entries4(); Entries8(); Entries12();
  }

  lemma Odd201()
    ensures Length(201) <= 13
  {
    hide TableRow, Splits;
    Entries0(); Entries1(); Entries2(); Entries4(); Entries8(); Entries12();
  }

  lemma Odd203()
    ensures Length(203) <= 13
  {
    hide TableRow, Splits;
    Entries0(); Entries1(); Entries2(); Entries5(); Entries7(); Entries12();
  }

  lemma Odd205()
    ensures Length(205) <= 13
  {
    hide TableRow, Splits;
    Entries0(); Entries1(); Entries2(); Entries5(); Entries10(); Entries12();
  }

  lemma Odd207()
    ensures Length(207) <= 13
  {
    hide TableRow, Splits;
    Entries0(); Entries1(); Entries2(); Entries4(); Entries8(); Entries12();
  }

  lemma Odd209()
    ensures Length(209) <= 13
  {
    hide TableRow, Splits;
    Entries0(); Entries1(); Entries2(); Entries4(); Entries8(); Entries9(); Entries13();
  }

  lemma Odd211()
    ensures Length(211) <= 13
  {
    hide TableRow, Splits;
    Entries0(); Entries1(); Entries2(); Entries4(); Entries9(); Entries13();
  }

  lemma Odd213()
    ensures Length(213) <= 13
  {
    hide TableRow, Splits;
    Entries0(); Entries1(); Entries3(); Entries6(); Entries13();
  }

  lemma Odd215()
    ensures Length(215) <= 13
  {
    hide TableRow, Splits;
    Entries0(); Entries1(); Entries2(); Entries4(); Entries8(); Entries9(); Entries13();
  }

  lemma Odd217()
    ensures Length(217) <= 13
  {
    hide TableRow, Splits;
    Entries0(); Entries1(); Entries3(); Entries6(); Entries12(); Entries13();
  }

  lemma Odd219()
    ensures Length(219) <= 13
  {
    hide TableRow, Splits;
    Entries0(); Entries1(); Entries2(); Entries4(); Entries9(); Entries13();
  }

  lemma Odd221()
    ensures Length(221) <= 13
  {
    hide TableRow, Splits;
    Entries0(); Entries1(); Entries2(); Entries3(); Entries5(); Entries10(); Entries13();
  }

  lemma Odd223()
    ensures Length(223) <= 13
  {
    hide TableRow, Splits;
    Entries0(); Entries1(); Entries2(); Entries4(); Entries8(); Entries9(); Entries13();
  }

  lemma Odd225()
    ensures Length(225) <= 13
  {
    hide TableRow, Splits;
    Entries0(); Entries1(); Entries2(); Entries4(); Entries6(); Entries8(); Entries14();
  }

  lemma Odd227()
    ensures Length(227) <= 13
  {
    hide TableRow, Splits;
    Entries0(); Entries1(); Entries2(); Entries4(); Entries6(); Entries8(); Entries14();
  }

  lemma Odd229()
    ensures Length(229) <= 13
  {
    hide TableRow, Splits;
    Entries0(); Entries1(); Entries2(); Entries5(); Entries11(); Entries14();
  }

  lemma Odd231()
    ensures Length(231) <= 13
  {
    hide TableRow, Splits;
    Entries0(); Entries1(); Entries2(); Entries4(); Entries6(); Entries8(); Entries14();
  }

  lemma Odd233()
    ensures Length(233) <= 13
  {
    hide TableRow, Splits;
    Entries0(); Entries1(); Entries2(); Entries3(); Entries6(); Entries12(); Entries14();
  }

  lemma Odd235()
    ensures Length(235) <= 13
  {
    hide TableRow, Splits;
    Entries0(); Entries1(); Entries2(); Entries4(); Entries6(); Entries8(); Entries14();
  }

  lemma Odd237()
    ensures Length(237) <= 13
  {
    hide TableRow, Splits;
    Entries0(); Entries1(); Entries2(); Entries4(); Entries9(); Entries14();
  }

  lemma Odd239()
    ensures Length(239) <= 13
  {
    hide TableRow, Splits;
    Entries0(); Entries1(); Entries2(); Entries4(); Entries6(); Entries12(); Entries14();
  }

  lemma Odd241()
    ensures Length(241) <= 13
  {
    hide TableRow, Splits;
    Entries0(); Entries1(); Entries3(); Entries7(); Entries15();
  }

  lemma Odd243()
    ensures Length(243) <= 13
  {
    hide TableRow, Splits;
    Entries0(); Entries1(); Entries2(); Entries3(); Entries5(); Entries10(); Entries15();
  }

  lemma Odd245()
    ensures Length(245) <= 13
  {
    hide TableRow, Splits;
    Entries0(); Entries1(); Entries2(); Entries3(); Entries6(); Entries9(); Entries15();
  }

  lemma Odd247()
    ensures Length(247) <= 13
  {
    hide TableRow, Splits;
    Entries0(); Entries1(); Entries2(); Entries4(); Entries5(); Entries9(); Entries15();
  }

  lemma Odd249()
    ensures Length(249) <= 13
  {
    hide TableRow, Splits;
    Entries0(); Entries1(); Entries2(); Entries5(); Entries10(); Entries15();
  }

  lemma Odd251()
    ensures Length(251) <= 13
  {
    hide TableRow, Splits;
    Entries0(); Entries1(); Entries2(); Entries4(); Entries6(); Entries13(); Entries15();
  }

  lemma Odd253()
    ensures Length(253) <= 13
  {
    hide TableRow, Splits;
    Entries0(); Entries1(); Entries2(); Entries4(); Entries7(); Entries8(); Entries15();
  }

  lemma Odd255()
    ensures Length(255) <= 13
  {
    hide TableRow, Splits;
    Entries0(); Entries1(); Entries2(); Entries3(); Entries6(); Entries9(); Entries15();
  }

  lemma OddBelow8(n: nat)
    requires n % 2 == 1 && 1 <= n < 8
    ensures Length(n) <= 2 * Bits(n) - 2
  {
    hide Length;
    if
    case 1 <= n < 9 => Odd1();
  }

  lemma OddBelow16(n: nat)
    requires n % 2 == 1 && 8 <= n < 16
    ensures Length(n) <= 6
  {
    hide Length;
    if
    case 9 <= n < 17 => Odd9();
  }

  lemma OddBelow32(n: nat)
    requires n % 2 == 1 && 16 <= n < 32
    ensures Length(n) <= 8
  {
    hide Length;
    if
    case 17 <= n < 25 => Odd17();
    case 25 <= n < 29 => Odd25();
    case 29 <= n < 33 => Odd29();
  }

  lemma OddBelow64(n: nat)
    requires n % 2 == 1 && 32 <= n < 64
    ensures Length(n) <= 9
  {
    hide Length;
    if
    case 33 <= n < 37 => Odd33();
    case 37 <= n < 41 => Odd37();
    case 41 <= n < 45 => Odd41();
    case 45 <= n < 49 => Odd45();
    case 49 <= n < 53 => Odd49();
    case 53 <= n < 57 => Odd53();
    case 57 <= n < 61 => Odd57();
    case 61 <= n < 65 => Odd61();
  }

  lemma OddBelow128(n: nat)
    requires n % 2 == 1 && 64 <= n < 128
    ensures Length(n) <= 11
  {
    hide Length;
    if
    case 65 <= n < 69 => Odd65();
    case 69 <= n < 73 => Odd69();
    case 73 <= n < 77 => Odd73();
    case 77 <= n < 81 => Odd77();
    case 81 <= n < 85 => Odd81();
    case 85 <= n < 89 => Odd85();
    case 89 <= n < 93 => Odd89();
    case 93 <= n < 97 => Odd93();
    case 97 <= n < 101 => Odd97();
    case 101 <= n < 105 => Odd101();
    case 105 <= n < 109 => Odd105();
    case 109 <= n < 111 => Odd109();
    case 111 <= n < 113 => Odd111();
    case 113 <= n < 115 => Odd113();
    case 115 <= n < 117 => Odd115();
    case 117 <= n < 119 => Odd117();
    case 119 <= n < 121 => Odd119();
    case 121 <= n < 125 => Odd121();
    case 125 <= n < 129 => Odd125();
  }

  lemma OddBelow256(n: nat)
    requires n % 2 == 1 && 128 <= n < 256
    ensures Length(n) <= 13
  {
    hide Length;
    if
    case 129 <= n < 133 => Odd129();
    case 133 <= n < 135 => Odd133();
    case 135 <= n < 137 => Odd135();
    case 137 <= n < 139 => Odd137();
    case 139 <= n < 141 => Odd139();
    case 141 <= n < 143 => Odd141();
    case 143 <= n < 145 => Odd143();
    case 145 <= n < 147 => Odd145();
    case 147 <= n < 149 => Odd147();
    case 149 <= n < 151 => Odd149();
    case 151 <= n < 153 => Odd151();
    case 153 <= n < 155 => Odd153();
    case 155 <= n < 157 => Odd155();
    case 157 <= n < 159 => Odd157();
    case 159 <= n < 161 => Odd159();
    case 161 <= n < 163 => Odd161();
    case 163 <= n < 165 => Odd163();
    case 165 <= n < 167 => Odd165();
    case 167 <= n < 169 => Odd167();
    case 169 <= n < 171 => Odd169();
    case 171 <= n < 173 => Odd171();
    case 173 <= n < 175 => Odd173();
    case 175 <= n < 177 => Odd175();
    case 177 <= n < 179 => Odd177();
    case 179 <= n < 181 => Odd179();
    case 181 <= n < 183 => Odd181();
    case 183 <= n < 185 => Odd183();
    case 185 <= n < 187 => Odd185();
    case 187 <= n < 189 => Odd187();
    case 189 <= n < 191 => Odd189();
    case 191 <= n < 193 => Odd191();
    case 193 <= n < 195 => Odd193();
    case 195 <= n < 197 => Odd195();
    case 197 <= n < 199 => Odd197();
    case 199 <= n < 201 => Odd199();
    case 201 <= n < 203 => Odd201();
    case 203 <= n < 205 => Odd203();
    case 205 <= n < 207 => Odd205();
    case 207 <= n < 209 => Odd207();
    case 209 <= n < 211 => Odd209();
    case 211 <= n < 213 => Odd211();
    case 213 <= n < 215 => Odd213();
    case 215 <= n < 217 => Odd215();
    case 217 <= n < 219 => Odd217();
    case 219 <= n < 221 => Odd219();
    case 221 <= n < 223 => Odd221();
    case 223 <= n < 225 => Odd223();
    case 225 <= n < 227 => Odd225();
    case 227 <= n < 229 => Odd227();
    case 229 <= n < 231 => Odd229();
    case 231 <= n < 233 => Odd231();
    case 233 <= n < 235 => Odd233();
    case 235 <= n < 237 => Odd235();
    case 237 <= n < 239 => Odd237();
    case 239 <= n < 241 => Odd239();
    case 241 <= n < 243 => Odd241();
    case 243 <= n < 245 => Odd243();
    case 245 <= n < 247 => Odd245();
    case 247 <= n < 249 => Odd247();
    case 249 <= n < 251 => Odd249();
    case 251 <= n < 253 => Odd251();
    case 253 <= n < 255 => Odd253();
    case 255 <= n < 257 => Odd255();
  }

  lemma {:induction false} BitsMonotone(m: nat, n: nat)
    requires m <= n
    ensures Bits(m) <= Bits(n)
  {
    if m > 0 {
      BitsMonotone(m / 2, n / 2);
    }
  }

  lemma OddBound(n: nat)
    requires n % 2 == 1 && n < TABLE_SIZE
    ensures Length(n) <= 2 * Bits(n) - if n < 32 then 2 else 3
  {
    hide Length;
    if
    case n < 8 => OddBelow8(n);
    case 8 <= n < 16 => OddBelow16(n); BitsMonotone(8, n);
    case 16 <= n < 32 => OddBelow32(n); BitsMonotone(16, n);
    case 32 <= n < 64 => OddBelow64(n); BitsMonotone(32, n);
    case 64 <= n < 128 => OddBelow128(n); BitsMonotone(64, n);
    case n >= 128 => OddBelow256(n); BitsMonotone(128, n);
  }

  lemma LengthEven(n: nat)
    requires 1 <= n && 2 * n < TABLE_SIZE
    ensures Length(2 * n) == 1 + Length(n)
  {
    hide TableRow;
    assert Table(2 * n) == n;
    assert IsNeeded(n, n);
  }

  /** No power in the table needs more than two products a digit, less two or three. */
  lemma {:induction false} TableBound(n: nat)
    requires 1 <= n < TABLE_SIZE
    ensures |Needed(n) - {1}| <= 2 * Bits(n) - if n < 32 then 2 else 3
  {
    LengthBound(n);
    ShortLength(n);
  }

  lemma {:induction false} ShortLength(n: nat)
    requires 1 <= n < TABLE_SIZE
    ensures Length(n) <= 2 * Bits(n) - if n < 32 then 2 else 3
  {
    hide Length;
    if n % 2 == 1 {
      OddBound(n);
    } else {
      LengthEven(n / 2);
      ShortLength(n / 2);
    }
  }
}
