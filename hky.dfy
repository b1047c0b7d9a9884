// The HKY nucleotide model of the yeast paralog example: the 12 univariate
// transitions, the 96 transitions of a pair of paralogous sites, the
// unnormalized rates and exit rates built from them, and the root prior.
// Nucleotides are indexed by their position in "ACGT".

module Hky {
  import opened StateSpace
  import opened Expect

  /** One univariate transition: initial and final nucleotide, ts and tv indicators. */
  datatype Transition = Transition(initial: nat, final: nat, ts: int, tv: int)

  /** The transitions (as opposed to transversions): A<->G and C<->T. */
  const TsPairs: seq<(nat, nat)> := [(0, 2), (2, 0), (1, 3), (3, 1)]

  /** Membership of a pair in a tuple of pairs, scanned from the front. */
  function Contains(pairs: seq<(nat, nat)>, p: (nat, nat)): bool
  {
    |pairs| > 0 && (pairs[0] == p || Contains(pairs[1..], p))
  }

  lemma {:induction false} ContainsMeaning(pairs: seq<(nat, nat)>, p: (nat, nat))
    ensures Contains(pairs, p) <==> p in pairs
  {
    if |pairs| > 0 {
      ContainsMeaning(pairs[1..], p);
      assert pairs == [pairs[0]] + pairs[1..];
    }
  }

  function TsIndicator(i: nat, j: nat): int
  {
    if Contains(TsPairs, (i, j)) then 1 else 0
  }

  /** A and G (0 and 2) are the purines; C and T (1 and 3) the pyrimidines. */
  predicate IsPurine(n: nat)
  {
    n == 0 || n == 2
  }

  /** Two nucleotides of the same class: both purines or both pyrimidines. */
  predicate SameClass(i: nat, j: nat)
  {
    IsPurine(i) == IsPurine(j)
  }

  /** A transition is a change between two purines or between two pyrimidines. */
  lemma TsIsSameClass(i: nat, j: nat)
    requires i < 4 && j < 4 && i != j
    ensures TsIndicator(i, j) == 1 <==> SameClass(i, j)
    ensures TsIndicator(i, j) == 0 || TsIndicator(i, j) == 1
  {
    ContainsMeaning(TsPairs, (i, j));
    if SameClass(i, j) {
      assert (i == 0 && j == 2) || (i == 2 && j == 0) || (i == 1 && j == 3) || (i == 3 && j == 1);
      assert (i, j) in TsPairs;
    } else {
      assert (i, j) !in TsPairs;
    }
  }

  function HkyTransition(i: nat, j: nat): Transition
  {
    Transition(i, j, TsIndicator(i, j), 1 - TsIndicator(i, j))
  }

  /** The inner loop of the generator: the pairs (i, j), (i, j+1), ..., (i, 3) with i != j. */
  function HkyRow(i: nat, j: nat): seq<(nat, nat)>
    decreases 4 - j
  {
    if j >= 4 then [] else (if i != j then [(i, j)] else []) + HkyRow(i, j + 1)
  }

  /** The outer loop of the generator: initial states i, i+1, ..., 3. */
  function HkyRows(i: nat): seq<(nat, nat)>
    decreases 4 - i
  {
    if i >= 4 then [] else HkyRow(i, 0) + HkyRows(i + 1)
  }

  /** The k-th nucleotide other than i, counting in increasing order. */
  function Other(i: nat, k: nat): nat
  {
    if k < i then k else k + 1
  }

  /** The pairs out of i, in increasing order of the final state. */
  function RowOf(i: nat): (row: seq<(nat, nat)>)
    ensures |row| == 3
  {
    seq(3, q requires 0 <= q < 3 => (i, Other(i, q)))
  }

  lemma HkyRowIs(i: nat)
    requires i < 4
    ensures HkyRow(i, 0) == RowOf(i)
  {
    assert HkyRow(i, 4) == [];
    assert HkyRow(i, 3) == (if i != 3 then [(i, 3)] else []);
    assert HkyRow(i, 2) == (if i != 2 then [(i, 2)] else []) + HkyRow(i, 3);
    assert HkyRow(i, 1) == (if i != 1 then [(i, 1)] else []) + HkyRow(i, 2);
    assert RowOf(i) == [(i, Other(i, 0)), (i, Other(i, 1)), (i, Other(i, 2))];
  }

  lemma {:induction false} HkyRowsLength(c: nat)
    requires c <= 4
    ensures |HkyRows(c)| == 12 - 3 * c
    decreases 4 - c
  {
    if c < 4 {
      HkyRowIs(c);
      HkyRowsLength(c + 1);
    }
  }

  /** Rows c, ..., 3 of the generator hold the pairs at positions 3c, ..., 11: row r, column q at 3 (r - c) + q. */
  lemma {:induction false} HkyRowsAt(c: nat, r: nat, q: nat)
    requires c <= r < 4 && q < 3
    ensures |HkyRows(c)| == 12 - 3 * c && HkyRows(c)[3 * (r - c) + q] == (r, Other(r, q))
    decreases 4 - c
  {
    HkyRowIs(c);
    HkyRowsLength(c);
    var rest := HkyRows(c + 1);
    assert HkyRows(c) == RowOf(c) + rest;
    if r == c {
      assert HkyRows(c)[q] == RowOf(c)[q];
    } else {
      HkyRowsAt(c + 1, r, q);
      assert HkyRows(c)[3 * (r - c) + q] == rest[3 * (r - (c + 1)) + q];
    }
  }

  lemma DivThree(k: nat, c: nat)
    requires 3 * c <= k < 3 * c + 3
    ensures k / 3 == c && k % 3 == k - 3 * c
  {
  }

  /** The generator labels each pair with its ts and tv indicators. */
  function Label(pairs: seq<(nat, nat)>): seq<Transition>
  {
    seq(|pairs|, k requires 0 <= k < |pairs| => HkyTransition(pairs[k].0, pairs[k].1))
  }

  /**
   * gen_hky: the 12 transitions i -> j with i != j over the four nucleotides,
   * in increasing order of (i, j), each labelled as a transition (ts = 1)
   * exactly when i and j are of the same class, and tv = 1 - ts.
   */
  function GenHky(): (r: seq<Transition>)
    ensures |r| == 12
    ensures forall k :: 0 <= k < 12 ==> r[k].initial < 4 && r[k].final < 4 && r[k].initial != r[k].final
    ensures forall k :: 0 <= k < 12 ==> (r[k].ts == 0 || r[k].ts == 1) && r[k].tv == 1 - r[k].ts
    ensures forall k :: 0 <= k < 12 ==> (r[k].ts == 1 <==> SameClass(r[k].initial, r[k].final))
    ensures forall k, l :: 0 <= k < l < 12 ==>
      4 * r[k].initial + r[k].final < 4 * r[l].initial + r[l].final
    ensures forall i, j :: 0 <= i < 4 && 0 <= j < 4 && i != j ==> HasTransition(r, i, j)
  {
    var r := Label(HkyRows(0));
    HkyEntries(r);
    GenHkyFacts(r);
    r
  }

  /** Some transition in ts goes from i to j. */
  predicate HasTransition(ts: seq<Transition>, i: nat, j: nat)
  {
    exists k :: 0 <= k < |ts| && ts[k].initial == i && ts[k].final == j
  }

  predicate HkyEntry(t: Transition, k: nat)
  {
    t == HkyTransition(k / 3, Other(k / 3, k % 3))
  }

  lemma HkyEntries(r: seq<Transition>)
    requires r == Label(HkyRows(0))
    ensures |r| == 12 && forall k :: 0 <= k < 12 ==> HkyEntry(r[k], k)
  {
    HkyRowsLength(0);
    forall k | 0 <= k < 12
      ensures HkyEntry(r[k], k)
    {
      DivThree(k, k / 3);
      HkyRowsAt(0, k / 3, k % 3);
    }
  }

  lemma GenHkyFacts(r: seq<Transition>)
    requires |r| == 12 && forall k :: 0 <= k < 12 ==> HkyEntry(r[k], k)
    ensures forall k :: 0 <= k < 12 ==> r[k].initial < 4 && r[k].final < 4 && r[k].initial != r[k].final
    ensures forall k :: 0 <= k < 12 ==> (r[k].ts == 0 || r[k].ts == 1) && r[k].tv == 1 - r[k].ts
    ensures forall k :: 0 <= k < 12 ==> (r[k].ts == 1 <==> SameClass(r[k].initial, r[k].final))
    ensures forall k, l :: 0 <= k < l < 12 ==>
      4 * r[k].initial + r[k].final < 4 * r[l].initial + r[l].final
    ensures forall i, j :: 0 <= i < 4 && 0 <= j < 4 && i != j ==> HasTransition(r, i, j)
  {
    forall k | 0 <= k < 12
      ensures (r[k].ts == 1 <==> SameClass(r[k].initial, r[k].final))
      ensures r[k].ts == 0 || r[k].ts == 1
    {
      TsIsSameClass(k / 3, Other(k / 3, k % 3));
    }
    forall k, l | 0 <= k < l < 12
      ensures 4 * r[k].initial + r[k].final < 4 * r[l].initial + r[l].final
    {
      DivThree(k, k / 3);
      DivThree(l, l / 3);
    }
    forall i, j | 0 <= i < 4 && 0 <= j < 4 && i != j
      ensures HasTransition(r, i, j)
    {
      var k := 3 * i + (if j < i then j else j - 1);
      DivThree(k, i);
      assert HkyEntry(r[k], k);
      assert r[k].initial == i && r[k].final == j;
    }
  }

  /** row_idx_to_info[i]: the transitions out of i, appended in the order they occur in ts. */
  function TransitionsFrom(ts: seq<Transition>, i: nat): seq<Transition>
  {
    if |ts| == 0 then []
    else TransitionsFrom(ts[..|ts| - 1], i) + (if ts[|ts| - 1].initial == i then [ts[|ts| - 1]] else [])
  }

  lemma {:induction false} TransitionsFromAppend(a: seq<Transition>, b: seq<Transition>, i: nat)
    ensures TransitionsFrom(a + b, i) == TransitionsFrom(a, i) + TransitionsFrom(b, i)
    decreases |b|
  {
    if |b| > 0 {
      var b' := b[..|b| - 1];
      assert (a + b)[..|a + b| - 1] == a + b';
      TransitionsFromAppend(a, b', i);
    } else {
      assert a + b == a;
    }
  }

  /** The three transitions out of i, in increasing order of the final state. */
  function Out(i: nat): seq<Transition>
  {
    Label(RowOf(i))
  }

  lemma TransitionsFromRow(c: nat, i: nat)
    ensures TransitionsFrom(Out(c), i) == if c == i then Out(c) else []
  {
    var o := Out(c);
    assert o[..2][..1] == [o[0]];
    assert o[..2] == [o[0], o[1]];
    assert o[..3] == o;
    assert TransitionsFrom([o[0]], i) == TransitionsFrom([], i) + (if c == i then [o[0]] else []);
  }

  lemma LabelAppend(a: seq<(nat, nat)>, b: seq<(nat, nat)>)
    ensures Label(a + b) == Label(a) + Label(b)
  {
  }

  lemma {:induction false} TransitionsFromRows(c: nat, i: nat)
    requires c <= 4 && i < 4
    ensures TransitionsFrom(Label(HkyRows(c)), i) == if c <= i then Out(i) else []
    decreases 4 - c
  {
    if c == 4 {
      assert Label(HkyRows(c)) == [];
    } else {
      HkyRowIs(c);
      LabelAppend(RowOf(c), HkyRows(c + 1));
      TransitionsFromAppend(Out(c), Label(HkyRows(c + 1)), i);
      TransitionsFromRow(c, i);
      TransitionsFromRows(c + 1, i);
    }
  }

  /** The precomputed row_idx_to_info[i] holds exactly the three transitions out of i. */
  lemma TransitionsOut(i: nat)
    requires i < 4
    ensures TransitionsFrom(GenHky(), i) == Out(i)
  {
    TransitionsFromRows(0, i);
  }

  /**
   * One transition of a pair of sites: the joint initial and final states,
   * the ts and tv indicators, and the final nucleotide of the site that changed.
   */
  datatype JointTransition =
    JointTransition(rowState: seq<nat>, columnState: seq<nat>, ts: int, tv: int, mutant: nat)

  /** The transitions of the first site of the joint state [ia, ib]. */
  function FirstMoves(ia: nat, ib: nat, infos: seq<Transition>): seq<JointTransition>
  {
    seq(|infos|, k requires 0 <= k < |infos| =>
      JointTransition([ia, ib], [infos[k].final, ib], infos[k].ts, infos[k].tv, infos[k].final))
  }

  /** The transitions of the second site of the joint state [ia, ib]. */
  function SecondMoves(ia: nat, ib: nat, infos: seq<Transition>): seq<JointTransition>
  {
    seq(|infos|, k requires 0 <= k < |infos| =>
      JointTransition([ia, ib], [ia, infos[k].final], infos[k].ts, infos[k].tv, infos[k].final))
  }

  /** row_idx_to_info: for each nucleotide, the transitions out of it. */
  function RowIdxToInfo(hky: seq<Transition>): seq<seq<Transition>>
  {
    seq(4, i requires 0 <= i < 4 => TransitionsFrom(hky, i))
  }

  /** Each entry of a table built from gen_hky holds three transitions. */
  predicate ThreeEach(info: seq<seq<Transition>>)
  {
    |info| == 4 && forall i :: 0 <= i < 4 ==> |info[i]| == 3
  }

  /** The transitions out of the joint state [ia, ib]: first site, then second site. */
  function JointBlock(info: seq<seq<Transition>>, ia: nat, ib: nat): (b: seq<JointTransition>)
    requires ThreeEach(info) && ia < 4 && ib < 4
    ensures |b| == 6
  {
    FirstMoves(ia, ib, info[ia]) + SecondMoves(ia, ib, info[ib])
  }

  /** The joint states s, s+1, ..., 15 in the order of itertools.product: s = 4 ia + ib. */
  function JointFrom(info: seq<seq<Transition>>, s: nat): seq<JointTransition>
    requires ThreeEach(info)
    decreases 16 - s
  {
    if s >= 16 then [] else JointStateCode(s); JointBlock(info, s / 4, s % 4) + JointFrom(info, s + 1)
  }

  /** The joint state with code s = 4 ia + ib. */
  function JointState(s: nat): seq<nat>
  {
    [s / 4, s % 4]
  }

  /** The site a (0 or 1) changes from its row value to its column value, the other stays. */
  lemma JointStateCode(s: nat)
    requires s < 16
    ensures s / 4 < 4 && s % 4 < 4
  {
  }

  predicate ChangesAt(t: JointTransition, a: nat)
    requires a < 2 && |t.rowState| == 2 && |t.columnState| == 2
  {
    t.rowState[a] != t.columnState[a] && t.rowState[1 - a] == t.columnState[1 - a]
    && t.mutant == t.columnState[a]
    && (t.ts == 1 <==> SameClass(t.rowState[a], t.columnState[a]))
  }

  /**
   * A well-formed joint transition: two nucleotides on each side, exactly one
   * site changes, the mutant is its new nucleotide, ts labels a change of the
   * same class and tv = 1 - ts.
   */
  predicate SingleChange(t: JointTransition)
  {
    |t.rowState| == 2 && |t.columnState| == 2
    && t.rowState[0] < 4 && t.rowState[1] < 4 && t.columnState[0] < 4 && t.columnState[1] < 4
    && (ChangesAt(t, 0) || ChangesAt(t, 1))
    && (t.ts == 0 || t.ts == 1) && t.tv == 1 - t.ts
  }

  lemma OutEntry(i: nat, m: nat)
    requires i < 4 && m < 3
    ensures |Out(i)| == 3
    ensures Out(i)[m].initial == i && Out(i)[m].final == Other(i, m) && Other(i, m) < 4
    ensures Out(i)[m].initial != Out(i)[m].final
    ensures Out(i)[m].ts == 0 || Out(i)[m].ts == 1
    ensures Out(i)[m].tv == 1 - Out(i)[m].ts
    ensures Out(i)[m].ts == 1 <==> SameClass(i, Other(i, m))
  {
    TsIsSameClass(i, Other(i, m));
  }

  /** The table built from gen_hky: entry i is the three transitions out of i. */
  lemma InfoIsOut(info: seq<seq<Transition>>)
    requires info == RowIdxToInfo(GenHky())
    ensures InfoFromHky(info)
  {
    forall i | 0 <= i < 4
      ensures info[i] == Out(i) && |Out(i)| == 3
    {
      TransitionsOut(i);
      OutEntry(i, 0);
    }
  }

  /** The three transitions out of i, as OutShape describes them. */
  lemma OutShaped(i: nat)
    requires i < 4
    ensures |Out(i)| == 3 && forall q :: 0 <= q < 3 ==> OutShape(i, q, Out(i)[q])
  {
    forall q | 0 <= q < 3
      ensures OutShape(i, q, Out(i)[q])
    {
      OutEntry(i, q);
    }
  }

  /**
   * t is the transition at position q out of i: it goes to Other(i, q), is a
   * ts change exactly when the two nucleotides are of the same class, and tv = 1 - ts.
   */
  predicate OutShape(i: nat, q: nat, t: Transition)
  {
    t.initial == i && t.final == Other(i, q) && t.final < 4 && t.initial != t.final
    && t.ts == (if SameClass(i, t.final) then 1 else 0) && t.tv == 1 - t.ts
  }

  /** The table holds, for each nucleotide i, the three transitions out of i. */
  predicate InfoFromHky(info: seq<seq<Transition>>)
  {
    ThreeEach(info) && forall i :: 0 <= i < 4 ==> info[i] == Out(i)
  }

  /**
   * Position q of a block: q = 0, 1, 2 change the first site to the other
   * nucleotides in increasing order, q = 3, 4, 5 the second site likewise.
   */
  predicate InBlockOrder(t: JointTransition, q: nat)
    requires |t.rowState| == 2
  {
    if q < 3 then t.columnState == [Other(t.rowState[0], q), t.rowState[1]]
    else t.columnState == [t.rowState[0], Other(t.rowState[1], q - 3)]
  }

  lemma BlockFacts(info: seq<seq<Transition>>, ia: nat, ib: nat, q: nat)
    requires InfoFromHky(info)
    requires ia < 4 && ib < 4 && q < 6
    ensures JointBlock(info, ia, ib)[q].rowState == [ia, ib]
    ensures SingleChange(JointBlock(info, ia, ib)[q])
    ensures InBlockOrder(JointBlock(info, ia, ib)[q], q)
  {
    var t := JointBlock(info, ia, ib)[q];
    if q < 3 {
      OutEntry(ia, q);
      assert ChangesAt(t, 0);
    } else {
      OutEntry(ib, q - 3);
      assert ChangesAt(t, 1);
    }
  }

  lemma DivSix(k: nat, s: nat)
    requires 6 * s <= k < 6 * s + 6
    ensures k / 6 == s && k % 6 == k - 6 * s
  {
  }

  /** Blocks s, ..., 15 hold the joint transitions at positions 6s, ..., 95. */
  lemma {:induction false} JointFromAt(info: seq<seq<Transition>>, s: nat, k: nat)
    requires ThreeEach(info) && s < 16 && 6 * s <= k < 96
    ensures |JointFrom(info, s)| == 96 - 6 * s && JointBlockAt(info, JointFrom(info, s)[k - 6 * s], k)
    decreases 16 - s
  {
    JointStateCode(s);
    var block := JointBlock(info, s / 4, s % 4);
    var rest := JointFrom(info, s + 1);
    assert JointFrom(info, s) == block + rest;
    if s < 15 {
      JointFromAt(info, s + 1, if k < 6 * s + 6 then 6 * s + 6 else k);
    }
    assert |rest| == 90 - 6 * s;
    var m := k - 6 * s;
    if m < 6 {
      DivSix(k, s);
      assert JointFrom(info, s)[m] == block[m];
    } else {
      assert JointFrom(info, s)[m] == rest[k - 6 * (s + 1)];
    }
  }

  /** t is the transition at position k of the joint enumeration over info. */
  predicate JointBlockAt(info: seq<seq<Transition>>, t: JointTransition, k: nat)
    requires ThreeEach(info) && k < 96
  {
    JointStateCode(k / 6);
    t == JointBlock(info, k / 6 / 4, k / 6 % 4)[k % 6]
  }

  /**
   * gen_joint_hky: 96 joint transitions, six out of each joint state, the
   * joint states in the order of itertools.product; within a block the three
   * changes of the first site, then the three of the second, each to the
   * other nucleotides in increasing order; each changes exactly one site and
   * carries that site's ts and tv labels and its new nucleotide.
   */
  function GenJointHky(): (r: seq<JointTransition>)
    ensures |r| == 96
    ensures forall k :: 0 <= k < 96 ==> JointEntryOk(r, k)
  {
    var info := RowIdxToInfo(GenHky());
    InfoIsOut(info);
    var r := JointFrom(info, 0);
    JointFacts(info, r);
    r
  }

  lemma JointFacts(info: seq<seq<Transition>>, r: seq<JointTransition>)
    requires InfoFromHky(info)
    requires r == JointFrom(info, 0)
    ensures |r| == 96
    ensures forall k :: 0 <= k < 96 ==> JointEntryOk(r, k)
  {
    JointEntry(info, r, 0);
    forall k | 0 <= k < 96
      ensures JointEntryOk(r, k)
    {
      JointEntry(info, r, k);
    }
  }

  predicate JointEntryOk(r: seq<JointTransition>, k: nat)
    requires k < |r|
  {
    r[k].rowState == JointState(k / 6) && SingleChange(r[k]) && InBlockOrder(r[k], k % 6)
  }

  lemma JointEntry(info: seq<seq<Transition>>, r: seq<JointTransition>, k: nat)
    requires InfoFromHky(info)
    requires r == JointFrom(info, 0) && k < 96
    ensures |r| == 96 && JointEntryOk(r, k)
  {
    JointFromAt(info, 0, k);
    var c := k / 6;
    JointStateCode(c);
    BlockFacts(info, c / 4, c % 4, k % 6);
  }

  /** The rate of a change labelled (ts, tv) to nucleotide j: (kappa * ts + tv) * pi[j]. */
  function Rate(pi: seq<real>, kappa: real, ts: int, tv: int, j: nat): real
    requires |pi| == 4 && j < 4
  {
    (kappa * ts as real + tv as real) * pi[j]
  }

  /** The HKY rate multiplier between distinct nucleotides: kappa within a class, 1 across. */
  function Weight(kappa: real, i: nat, j: nat): real
  {
    if SameClass(i, j) then kappa else 1.0
  }

  function ExitTerm(pi: seq<real>, kappa: real, i: nat, j: nat): real
    requires |pi| == 4 && j < 4
  {
    if i == j then 0.0 else Weight(kappa, i, j) * pi[j]
  }

  /** The HKY exit rate of nucleotide i: the sum over j != i of Weight(i, j) * pi[j]. */
  function UnivariateExit(pi: seq<real>, kappa: real, i: nat): real
    requires |pi| == 4
  {
    ExitTerm(pi, kappa, i, 0) + ExitTerm(pi, kappa, i, 1) + ExitTerm(pi, kappa, i, 2) + ExitTerm(pi, kappa, i, 3)
  }

  /** The part of the exit rate of i due to its one transition partner (i + 2) % 4. */
  function TsExit(pi: seq<real>, kappa: real, i: nat): real
    requires |pi| == 4
  {
    kappa * pi[(i + 2) % 4]
  }

  /** The part of the exit rate of i due to the two nucleotides of the other class. */
  function TvExit(pi: seq<real>, i: nat): real
    requires |pi| == 4
  {
    pi[(i + 1) % 4] + pi[(i + 3) % 4]
  }

  /** For each nucleotide, the ts exit rate plus the tv exit rate is the whole exit rate. */
  lemma ExitSplits(pi: seq<real>, kappa: real, i: nat)
    requires |pi| == 4 && i < 4
    ensures TsExit(pi, kappa, i) + TvExit(pi, i) == UnivariateExit(pi, kappa, i)
  {
    if i == 0 {
      assert UnivariateExit(pi, kappa, i) == pi[1] + kappa * pi[2] + pi[3];
    } else if i == 1 {
      assert UnivariateExit(pi, kappa, i) == pi[0] + pi[2] + kappa * pi[3];
    } else if i == 2 {
      assert UnivariateExit(pi, kappa, i) == kappa * pi[0] + pi[1] + pi[3];
    } else {
      assert UnivariateExit(pi, kappa, i) == pi[0] + kappa * pi[1] + pi[2];
    }
  }

  /** The three aggregators of the source: every change, ts changes only, tv changes only. */
  datatype Kind = AllChanges | TsChanges | TvChanges

  /** Whether a change labelled (ts, tv) is counted; the source tests the labels' truthiness. */
  predicate Selected(kind: Kind, ts: int, tv: int)
  {
    match kind
    case AllChanges => true
    case TsChanges => ts != 0
    case TvChanges => tv != 0
  }

  /** The exit rate of nucleotide i restricted to the changes the kind counts. */
  function KindExit(pi: seq<real>, kappa: real, kind: Kind, i: nat): real
    requires |pi| == 4
  {
    match kind
    case AllChanges => UnivariateExit(pi, kappa, i)
    case TsChanges => TsExit(pi, kappa, i)
    case TvChanges => TvExit(pi, i)
  }

  predicate FinalsBelow(ts: seq<Transition>, n: nat)
  {
    forall k :: 0 <= k < |ts| ==> ts[k].final < n
  }

  /** The summed rate of the transitions in ts that the kind counts. */
  function RowRate(pi: seq<real>, kappa: real, kind: Kind, ts: seq<Transition>): real
    requires |pi| == 4 && FinalsBelow(ts, 4)
  {
    if |ts| == 0 then 0.0
    else
      var t := ts[|ts| - 1];
      RowRate(pi, kappa, kind, ts[..|ts| - 1]) + CountedRate(pi, kappa, kind, t)
  }

  lemma {:induction false} TransitionsFromFinals(ts: seq<Transition>, i: nat, n: nat)
    requires FinalsBelow(ts, n)
    ensures FinalsBelow(TransitionsFrom(ts, i), n)
    decreases |ts|
  {
    if |ts| > 0 {
      TransitionsFromFinals(ts[..|ts| - 1], i, n);
    }
  }

  /** The counted rate of one transition. */
  function CountedRate(pi: seq<real>, kappa: real, kind: Kind, t: Transition): real
    requires |pi| == 4 && t.final < 4
  {
    if Selected(kind, t.ts, t.tv) then Rate(pi, kappa, t.ts, t.tv, t.final) else 0.0
  }

  lemma RowRateThree(pi: seq<real>, kappa: real, kind: Kind, o: seq<Transition>)
    requires |pi| == 4 && |o| == 3 && FinalsBelow(o, 4)
    ensures RowRate(pi, kappa, kind, o) ==
      CountedRate(pi, kappa, kind, o[0]) + CountedRate(pi, kappa, kind, o[1]) + CountedRate(pi, kappa, kind, o[2])
  {
    var o2, o1 := o[..2], o[..1];
    assert o2[..1] == o1 && o1[..0] == [];
    assert RowRate(pi, kappa, kind, o1) == CountedRate(pi, kappa, kind, o[0]);
    assert RowRate(pi, kappa, kind, o2) == RowRate(pi, kappa, kind, o1) + CountedRate(pi, kappa, kind, o[1]);
  }

  /** The counted rate of i -> j: Weight(i, j) * pi[j] when the kind counts that change. */
  function KindTerm(pi: seq<real>, kappa: real, kind: Kind, i: nat, j: nat): real
    requires |pi| == 4 && j < 4
  {
    match kind
    case AllChanges => Weight(kappa, i, j) * pi[j]
    case TsChanges => if SameClass(i, j) then kappa * pi[j] else 0.0
    case TvChanges => if SameClass(i, j) then 0.0 else pi[j]
  }

  lemma KindExitByTerms(pi: seq<real>, kappa: real, kind: Kind, i: nat)
    requires |pi| == 4 && i < 4
    ensures KindExit(pi, kappa, kind, i) ==
      KindTerm(pi, kappa, kind, i, Other(i, 0)) + KindTerm(pi, kappa, kind, i, Other(i, 1)) + KindTerm(pi, kappa, kind, i, Other(i, 2))
  {
    if i == 0 {
      assert Other(i, 0) == 1 && Other(i, 1) == 2 && Other(i, 2) == 3;
      assert UnivariateExit(pi, kappa, i) == pi[1] + kappa * pi[2] + pi[3];
    } else if i == 1 {
      assert Other(i, 0) == 0 && Other(i, 1) == 2 && Other(i, 2) == 3;
      assert UnivariateExit(pi, kappa, i) == pi[0] + pi[2] + kappa * pi[3];
    } else if i == 2 {
      assert Other(i, 0) == 0 && Other(i, 1) == 1 && Other(i, 2) == 3;
      assert UnivariateExit(pi, kappa, i) == kappa * pi[0] + pi[1] + pi[3];
    } else {
      assert Other(i, 0) == 0 && Other(i, 1) == 1 && Other(i, 2) == 2;
      assert UnivariateExit(pi, kappa, i) == pi[0] + kappa * pi[1] + pi[2];
    }
  }

  /** The summed rates out of i, by kind, are the reference exit rates. */
  lemma OutRate(pi: seq<real>, kappa: real, kind: Kind, i: nat)
    requires |pi| == 4 && i < 4
    ensures FinalsBelow(Out(i), 4) && RowRate(pi, kappa, kind, Out(i)) == KindExit(pi, kappa, kind, i)
  {
    OutShaped(i);
    ShapedRate(pi, kappa, kind, Out(i), i);
  }

  /** Any three transitions shaped as those out of i sum, by kind, to the reference exit rate of i. */
  lemma ShapedRate(pi: seq<real>, kappa: real, kind: Kind, o: seq<Transition>, i: nat)
    requires |pi| == 4 && i < 4
    requires |o| == 3 && forall q :: 0 <= q < 3 ==> OutShape(i, q, o[q])
    ensures FinalsBelow(o, 4) && RowRate(pi, kappa, kind, o) == KindExit(pi, kappa, kind, i)
  {
    ShapedSum(pi, kappa, kind, o, i);
    KindExitByTerms(pi, kappa, kind, i);
  }

  /** The summed rate of the three transitions, term by term. */
  lemma ShapedSum(pi: seq<real>, kappa: real, kind: Kind, o: seq<Transition>, i: nat)
    requires |pi| == 4 && i < 4
    requires |o| == 3 && forall q :: 0 <= q < 3 ==> OutShape(i, q, o[q])
    ensures FinalsBelow(o, 4) && Other(i, 0) < 4 && Other(i, 1) < 4 && Other(i, 2) < 4
    ensures RowRate(pi, kappa, kind, o) ==
      KindTerm(pi, kappa, kind, i, Other(i, 0)) + KindTerm(pi, kappa, kind, i, Other(i, 1)) + KindTerm(pi, kappa, kind, i, Other(i, 2))
  {
    ShapedFinals(o, i);
    OtherBelow(i);
    RowRateThree(pi, kappa, kind, o);
    ShapedTerm(pi, kappa, kind, i, 0, o[0]);
    ShapedTerm(pi, kappa, kind, i, 1, o[1]);
    ShapedTerm(pi, kappa, kind, i, 2, o[2]);
  }

  lemma ShapedFinals(o: seq<Transition>, i: nat)
    requires |o| == 3 && forall q :: 0 <= q < 3 ==> OutShape(i, q, o[q])
    ensures FinalsBelow(o, 4)
  {
  }

  lemma OtherBelow(i: nat)
    requires i < 4
    ensures Other(i, 0) < 4 && Other(i, 1) < 4 && Other(i, 2) < 4
  {
  }

  lemma ShapedTerm(pi: seq<real>, kappa: real, kind: Kind, i: nat, q: nat, t: Transition)
    requires |pi| == 4 && OutShape(i, q, t)
    ensures CountedRate(pi, kappa, kind, t) == KindTerm(pi, kappa, kind, i, Other(i, q))
  {
  }

  lemma TransitionsFromSnoc(ts: seq<Transition>, k: nat, i: nat)
    requires k < |ts|
    ensures TransitionsFrom(ts[..k + 1], i) == TransitionsFrom(ts[..k], i) + (if ts[k].initial == i then [ts[k]] else [])
  {
    assert ts[..k + 1][..k] == ts[..k];
  }

  /**
   * get_unnormalized_univariate_exit_rates: adds the rate of each transition
   * of gen_hky to the exit rate of its initial state; the result is the HKY
   * exit rate of each nucleotide.
   */
  method UnnormalizedUnivariateExitRates(pi: seq<real>, kappa: real) returns (exitRates: seq<real>)
    requires |pi| == 4
    ensures |exitRates| == 4
    ensures forall i :: 0 <= i < 4 ==> exitRates[i] == UnivariateExit(pi, kappa, i)
  {
    var hky := GenHky();
    exitRates := AddExitRates(pi, kappa, hky);
    forall i | 0 <= i < 4
      ensures exitRates[i] == UnivariateExit(pi, kappa, i)
    {
      ExitsDone(pi, kappa, hky, exitRates, i);
    }
  }

  /** The loop of get_unnormalized_univariate_exit_rates, over any list of transitions between nucleotides. */
  method AddExitRates(pi: seq<real>, kappa: real, hky: seq<Transition>) returns (exitRates: seq<real>)
    requires |pi| == 4 && FinalsBelow(hky, 4)
    requires forall k :: 0 <= k < |hky| ==> hky[k].initial < 4
    ensures ExitsSoFar(pi, kappa, hky, |hky|, exitRates)
  {
    exitRates := [0.0, 0.0, 0.0, 0.0];
    ExitsInit(pi, kappa, hky);
    for k := 0 to |hky|
      invariant |exitRates| == 4
      invariant ExitsSoFar(pi, kappa, hky, k, exitRates)
    {
      var t := hky[k];
      assert t.initial < 4 && t.final < 4;
      var rate := Rate(pi, kappa, t.ts, t.tv, t.final);
      ExitsStep(pi, kappa, hky, k, exitRates, rate);
      exitRates := exitRates[t.initial := exitRates[t.initial] + rate];
    }
  }

  /** After k steps, exit rate i sums the rates of the first k transitions out of i. */
  predicate ExitsSoFar(pi: seq<real>, kappa: real, hky: seq<Transition>, k: nat, exitRates: seq<real>)
  {
    |pi| == 4 && k <= |hky| && |exitRates| == 4 && FinalsBelow(hky, 4)
    && forall i :: 0 <= i < 4 ==> ExitSoFar(pi, kappa, hky[..k], exitRates[i], i)
  }

  lemma ExitsInit(pi: seq<real>, kappa: real, hky: seq<Transition>)
    requires |pi| == 4 && FinalsBelow(hky, 4)
    ensures ExitsSoFar(pi, kappa, hky, 0, [0.0, 0.0, 0.0, 0.0])
  {
    assert hky[..0] == [];
  }

  /** The entry e of nucleotide i sums the rates of the transitions of prefix out of i. */
  predicate ExitSoFar(pi: seq<real>, kappa: real, prefix: seq<Transition>, e: real, i: nat)
  {
    |pi| == 4 && FinalsBelow(TransitionsFrom(prefix, i), 4)
    && e == RowRate(pi, kappa, AllChanges, TransitionsFrom(prefix, i))
  }

  lemma ExitsStep(pi: seq<real>, kappa: real, hky: seq<Transition>, k: nat, exitRates: seq<real>, rate: real)
    requires ExitsSoFar(pi, kappa, hky, k, exitRates) && k < |hky| && hky[k].initial < 4
    requires rate == Rate(pi, kappa, hky[k].ts, hky[k].tv, hky[k].final)
    ensures ExitsSoFar(pi, kappa, hky, k + 1, exitRates[hky[k].initial := exitRates[hky[k].initial] + rate])
  {
    var next := exitRates[hky[k].initial := exitRates[hky[k].initial] + rate];
    forall i | 0 <= i < 4
      ensures ExitSoFar(pi, kappa, hky[..k + 1], next[i], i)
    {
      ExitsStepAt(pi, kappa, hky, k, exitRates[i], next[i], i);
    }
  }

  /** One step for one nucleotide i: its entry grows by the rate of transition k exactly when k leaves i. */
  lemma ExitsStepAt(pi: seq<real>, kappa: real, hky: seq<Transition>, k: nat, before: real, after: real, i: nat)
    requires k < |hky| && FinalsBelow(hky, 4) && ExitSoFar(pi, kappa, hky[..k], before, i)
    requires after == if hky[k].initial == i then before + Rate(pi, kappa, hky[k].ts, hky[k].tv, hky[k].final) else before
    ensures ExitSoFar(pi, kappa, hky[..k + 1], after, i)
  {
    TransitionsFromSnoc(hky, k, i);
    var prefix := TransitionsFrom(hky[..k], i);
    if hky[k].initial == i {
      RowRateSnoc(pi, kappa, AllChanges, prefix, hky[k]);
    } else {
      assert prefix + [] == prefix;
    }
  }

  lemma RowRateSnoc(pi: seq<real>, kappa: real, kind: Kind, ts: seq<Transition>, t: Transition)
    requires |pi| == 4 && FinalsBelow(ts, 4) && t.final < 4
    ensures FinalsBelow(ts + [t], 4)
    ensures RowRate(pi, kappa, kind, ts + [t]) == RowRate(pi, kappa, kind, ts) + CountedRate(pi, kappa, kind, t)
  {
    assert (ts + [t])[..|ts|] == ts;
  }

  lemma ExitsDone(pi: seq<real>, kappa: real, hky: seq<Transition>, exitRates: seq<real>, i: nat)
    requires hky == GenHky() && |pi| == 4 && i < 4
    requires ExitsSoFar(pi, kappa, hky, 12, exitRates)
    ensures exitRates[i] == UnivariateExit(pi, kappa, i)
  {
    assert ExitSoFar(pi, kappa, hky[..12], exitRates[i], i);
    assert hky[..12] == hky;
    TransitionsOut(i);
    OutRate(pi, kappa, AllChanges, i);
  }

  predicate MutantsBelow(js: seq<JointTransition>, n: nat)
  {
    forall k :: 0 <= k < |js| ==> js[k].mutant < n
  }

  /** The counted rate of one joint transition. */
  function JointCounted(pi: seq<real>, kappa: real, kind: Kind, t: JointTransition): real
    requires |pi| == 4 && t.mutant < 4
  {
    if Selected(kind, t.ts, t.tv) then Rate(pi, kappa, t.ts, t.tv, t.mutant) else 0.0
  }

  /** Lookup in a defaultdict(float): a missing key reads as 0. */
  function Get(m: map<seq<nat>, real>, key: seq<nat>): real
  {
    if key in m then m[key] else 0.0
  }

  /**
   * The exit-rate dictionary after the counted transitions of js have been
   * added, left to right, to the entry of their row state; as with
   * defaultdict, an entry exists once some counted transition has touched it.
   */
  function Accumulate(pi: seq<real>, kappa: real, kind: Kind, m: map<seq<nat>, real>, js: seq<JointTransition>): map<seq<nat>, real>
    requires |pi| == 4 && MutantsBelow(js, 4)
  {
    if |js| == 0 then m
    else
      AddCounted(pi, kappa, kind, Accumulate(pi, kappa, kind, m, js[..|js| - 1]), js[|js| - 1])
  }

  /** One step of the aggregation loop: a counted transition adds its rate to its row state's entry. */
  function AddCounted(pi: seq<real>, kappa: real, kind: Kind, acc: map<seq<nat>, real>, t: JointTransition): map<seq<nat>, real>
    requires |pi| == 4 && t.mutant < 4
  {
    if Selected(kind, t.ts, t.tv) then acc[t.rowState := Get(acc, t.rowState) + Rate(pi, kappa, t.ts, t.tv, t.mutant)]
    else acc
  }

  /** The summed counted rate of js. */
  function JointSum(pi: seq<real>, kappa: real, kind: Kind, js: seq<JointTransition>): real
    requires |pi| == 4 && MutantsBelow(js, 4)
  {
    if |js| == 0 then 0.0
    else JointSum(pi, kappa, kind, js[..|js| - 1]) + JointCounted(pi, kappa, kind, js[|js| - 1])
  }

  /** Some transition of js is counted. */
  predicate AnySelected(kind: Kind, js: seq<JointTransition>)
  {
    |js| > 0 && (AnySelected(kind, js[..|js| - 1]) || Selected(kind, js[|js| - 1].ts, js[|js| - 1].tv))
  }

  lemma {:induction false} AnySelectedAt(kind: Kind, js: seq<JointTransition>, q: nat)
    requires q < |js| && Selected(kind, js[q].ts, js[q].tv)
    ensures AnySelected(kind, js)
    decreases |js|
  {
    if q < |js| - 1 {
      var init := js[..|js| - 1];
      assert init[q] == js[q];
      AnySelectedAt(kind, init, q);
    }
  }

  lemma {:induction false} AccumulateAppend(pi: seq<real>, kappa: real, kind: Kind, m: map<seq<nat>, real>, a: seq<JointTransition>, b: seq<JointTransition>)
    requires |pi| == 4 && MutantsBelow(a, 4) && MutantsBelow(b, 4)
    ensures MutantsBelow(a + b, 4)
    ensures Accumulate(pi, kappa, kind, m, a + b) == Accumulate(pi, kappa, kind, Accumulate(pi, kappa, kind, m, a), b)
    decreases |b|
  {
    if |b| == 0 {
      assert a + b == a;
    } else {
      var b' := b[..|b| - 1];
      assert (a + b)[..|a + b| - 1] == a + b';
      AccumulateAppend(pi, kappa, kind, m, a, b');
    }
  }

  /**
   * Adding transitions that all leave the same row state touches that one
   * entry, by their summed counted rate, and creates it only if one is counted.
   */
  lemma {:induction false} AccumulateSameRow(pi: seq<real>, kappa: real, kind: Kind, m: map<seq<nat>, real>, js: seq<JointTransition>, key: seq<nat>)
    requires |pi| == 4 && MutantsBelow(js, 4) && forall k :: 0 <= k < |js| ==> js[k].rowState == key
    ensures !AnySelected(kind, js) ==> JointSum(pi, kappa, kind, js) == 0.0
    ensures Accumulate(pi, kappa, kind, m, js) ==
      if AnySelected(kind, js) then m[key := Get(m, key) + JointSum(pi, kappa, kind, js)] else m
    decreases |js|
  {
    if |js| > 0 {
      var init := js[..|js| - 1];
      AccumulateSameRow(pi, kappa, kind, m, init, key);
    }
  }

  lemma {:induction false} JointSumAppend(pi: seq<real>, kappa: real, kind: Kind, a: seq<JointTransition>, b: seq<JointTransition>)
    requires |pi| == 4 && MutantsBelow(a, 4) && MutantsBelow(b, 4)
    ensures MutantsBelow(a + b, 4)
    ensures JointSum(pi, kappa, kind, a + b) == JointSum(pi, kappa, kind, a) + JointSum(pi, kappa, kind, b)
    decreases |b|
  {
    if |b| == 0 {
      assert a + b == a;
    } else {
      var b' := b[..|b| - 1];
      assert (a + b)[..|a + b| - 1] == a + b';
      JointSumAppend(pi, kappa, kind, a, b');
    }
  }

  lemma {:induction false} FirstMovesSum(pi: seq<real>, kappa: real, kind: Kind, ia: nat, ib: nat, infos: seq<Transition>)
    requires |pi| == 4 && FinalsBelow(infos, 4)
    ensures MutantsBelow(FirstMoves(ia, ib, infos), 4)
    ensures JointSum(pi, kappa, kind, FirstMoves(ia, ib, infos)) == RowRate(pi, kappa, kind, infos)
    decreases |infos|
  {
    if |infos| > 0 {
      var init := infos[..|infos| - 1];
      assert FirstMoves(ia, ib, infos)[..|infos| - 1] == FirstMoves(ia, ib, init);
      FirstMovesSum(pi, kappa, kind, ia, ib, init);
    }
  }

  lemma {:induction false} SecondMovesSum(pi: seq<real>, kappa: real, kind: Kind, ia: nat, ib: nat, infos: seq<Transition>)
    requires |pi| == 4 && FinalsBelow(infos, 4)
    ensures MutantsBelow(SecondMoves(ia, ib, infos), 4)
    ensures JointSum(pi, kappa, kind, SecondMoves(ia, ib, infos)) == RowRate(pi, kappa, kind, infos)
    decreases |infos|
  {
    if |infos| > 0 {
      var init := infos[..|infos| - 1];
      assert SecondMoves(ia, ib, infos)[..|infos| - 1] == SecondMoves(ia, ib, init);
      SecondMovesSum(pi, kappa, kind, ia, ib, init);
    }
  }

  /** The position, among the moves of the first site out of i, of a change the kind counts. */
  function CountedWitness(kind: Kind, i: nat): nat
  {
    match kind
    case AllChanges => 0
    case TsChanges => if i == 0 || i == 3 then 1 else if i == 1 then 2 else 0
    case TvChanges => if i == 2 then 1 else 0
  }

  /** The counted rates out of a joint state add up to the two sites' exit rates. */
  lemma BlockSum(pi: seq<real>, kappa: real, kind: Kind, info: seq<seq<Transition>>, ia: nat, ib: nat)
    requires |pi| == 4 && InfoFromHky(info) && ia < 4 && ib < 4
    ensures MutantsBelow(JointBlock(info, ia, ib), 4)
    ensures AnySelected(kind, JointBlock(info, ia, ib))
    ensures JointSum(pi, kappa, kind, JointBlock(info, ia, ib)) == KindExit(pi, kappa, kind, ia) + KindExit(pi, kappa, kind, ib)
  {
    OutRate(pi, kappa, kind, ia);
    OutRate(pi, kappa, kind, ib);
    var first := FirstMoves(ia, ib, info[ia]);
    var second := SecondMoves(ia, ib, info[ib]);
    FirstMovesSum(pi, kappa, kind, ia, ib, info[ia]);
    SecondMovesSum(pi, kappa, kind, ia, ib, info[ib]);
    JointSumAppend(pi, kappa, kind, first, second);
    BlockCounts(kind, info, ia, ib);
  }

  lemma BlockCounts(kind: Kind, info: seq<seq<Transition>>, ia: nat, ib: nat)
    requires InfoFromHky(info) && ia < 4 && ib < 4
    ensures AnySelected(kind, JointBlock(info, ia, ib))
  {
    var q := CountedWitness(kind, ia);
    OutEntry(ia, q);
    var t := JointBlock(info, ia, ib)[q];
    assert t.ts == info[ia][q].ts && t.tv == info[ia][q].tv;
    AnySelectedAt(kind, JointBlock(info, ia, ib), q);
  }

  predicate IsJointState(key: seq<nat>)
  {
    |key| == 2 && key[0] < 4 && key[1] < 4
  }

  function Code(key: seq<nat>): nat
    requires |key| == 2
  {
    4 * key[0] + key[1]
  }

  lemma CodeOfState(s: nat, key: seq<nat>)
    requires s < 16
    ensures IsJointState(JointState(s)) && Code(JointState(s)) == s
    ensures IsJointState(key) && Code(key) == s ==> key == JointState(s)
  {
    if IsJointState(key) && Code(key) == s {
      assert key == [key[0], key[1]];
    }
  }

  /** The reference exit-rate entry of a joint state: the sum of its two sites' exit rates. */
  function JointExit(pi: seq<real>, kappa: real, kind: Kind, key: seq<nat>): real
    requires |pi| == 4 && |key| == 2
  {
    KindExit(pi, kappa, kind, key[0]) + KindExit(pi, kappa, kind, key[1])
  }

  lemma {:induction false} JointFromMutants(info: seq<seq<Transition>>, s: nat)
    requires InfoFromHky(info)
    ensures MutantsBelow(JointFrom(info, s), 4)
    decreases 16 - s
  {
    if s < 16 {
      JointStateCode(s);
      BlockSum(seq(4, _ => 0.0), 0.0, AllChanges, info, s / 4, s % 4);
      JointFromMutants(info, s + 1);
    }
  }

  /** Accumulating the block of joint state s adds its reference exit rate to its entry. */
  lemma AccumulateBlock(pi: seq<real>, kappa: real, kind: Kind, info: seq<seq<Transition>>, m: map<seq<nat>, real>, s: nat)
    requires |pi| == 4 && InfoFromHky(info) && s < 16
    ensures MutantsBelow(JointFrom(info, s), 4) && MutantsBelow(JointFrom(info, s + 1), 4)
    ensures Accumulate(pi, kappa, kind, m, JointFrom(info, s)) ==
      Accumulate(pi, kappa, kind, m[JointState(s) := Get(m, JointState(s)) + JointExit(pi, kappa, kind, JointState(s))], JointFrom(info, s + 1))
  {
    JointStateCode(s);
    var ia, ib := s / 4, s % 4;
    var rest := JointFrom(info, s + 1);
    assert JointFrom(info, s) == JointBlock(info, ia, ib) + rest;
    JointFromMutants(info, s + 1);
    AccumulateBlockAt(pi, kappa, kind, info, m, ia, ib, rest);
    assert JointState(s) == [ia, ib];
  }

  /** The block of the joint state [ia, ib], followed by the rest. */
  lemma AccumulateBlockAt(pi: seq<real>, kappa: real, kind: Kind, info: seq<seq<Transition>>, m: map<seq<nat>, real>,
                          ia: nat, ib: nat, rest: seq<JointTransition>)
    requires |pi| == 4 && InfoFromHky(info) && ia < 4 && ib < 4 && MutantsBelow(rest, 4)
    ensures MutantsBelow(JointBlock(info, ia, ib) + rest, 4)
    ensures Accumulate(pi, kappa, kind, m, JointBlock(info, ia, ib) + rest) ==
      Accumulate(pi, kappa, kind, m[[ia, ib] := Get(m, [ia, ib]) + JointExit(pi, kappa, kind, [ia, ib])], rest)
  {
    var block := JointBlock(info, ia, ib);
    BlockSum(pi, kappa, kind, info, ia, ib);
    forall k | 0 <= k < 6
      ensures block[k].rowState == [ia, ib]
    {
      BlockFacts(info, ia, ib, k);
    }
    AccumulateOneRow(pi, kappa, kind, m, block, rest, [ia, ib], JointExit(pi, kappa, kind, [ia, ib]));
  }

  /** A block of transitions out of one row state, some counted, followed by the rest. */
  lemma AccumulateOneRow(pi: seq<real>, kappa: real, kind: Kind, m: map<seq<nat>, real>,
                         block: seq<JointTransition>, rest: seq<JointTransition>, st: seq<nat>, e: real)
    requires |pi| == 4 && MutantsBelow(block, 4) && MutantsBelow(rest, 4)
    requires forall k :: 0 <= k < |block| ==> block[k].rowState == st
    requires AnySelected(kind, block) && JointSum(pi, kappa, kind, block) == e
    ensures MutantsBelow(block + rest, 4)
    ensures Accumulate(pi, kappa, kind, m, block + rest) == Accumulate(pi, kappa, kind, m[st := Get(m, st) + e], rest)
  {
    AccumulateAppend(pi, kappa, kind, m, block, rest);
    AccumulateSameRow(pi, kappa, kind, m, block, st);
  }

  /**
   * r is m with every joint state of code s or more added, each with its
   * reference exit rate, and nothing else changed.
   */
  ghost predicate AddedFrom(pi: seq<real>, kappa: real, kind: Kind, m: map<seq<nat>, real>, r: map<seq<nat>, real>, s: nat)
    requires |pi| == 4
  {
    (forall key :: key in r <==> key in m || (IsJointState(key) && Code(key) >= s))
    && (forall key :: key in m ==> r[key] == m[key])
    && (forall key :: key !in m && IsJointState(key) && Code(key) >= s ==> r[key] == JointExit(pi, kappa, kind, key))
  }

  /** Adding state s first and then the states above it adds the states from s on. */
  lemma AddedFromStep(pi: seq<real>, kappa: real, kind: Kind, m: map<seq<nat>, real>, r: map<seq<nat>, real>, s: nat)
    requires |pi| == 4 && s < 16
    requires forall key :: key in m ==> IsJointState(key) && Code(key) < s
    requires AddedFrom(pi, kappa, kind, m[JointState(s) := Get(m, JointState(s)) + JointExit(pi, kappa, kind, JointState(s))], r, s + 1)
    ensures AddedFrom(pi, kappa, kind, m, r, s)
  {
    var st := JointState(s);
    CodeOfState(s, st);
    assert st !in m;
    var m' := m[st := Get(m, st) + JointExit(pi, kappa, kind, st)];
    forall key
      ensures key in r <==> key in m || (IsJointState(key) && Code(key) >= s)
    {
      CodeOfState(s, key);
    }
    forall key | key in m
      ensures r[key] == m[key]
    {
      assert key != st;
      assert m'[key] == m[key];
    }
    forall key | key !in m && IsJointState(key) && Code(key) >= s
      ensures r[key] == JointExit(pi, kappa, kind, key)
    {
      CodeOfState(s, key);
      if Code(key) == s {
        assert key == st;
        assert key in m';
      }
    }
  }

  /**
   * Accumulating the joint states s, ..., 15 into a dictionary of lower
   * states adds exactly those states, each with its reference exit rate.
   */
  lemma {:induction false} AccumulateFrom(pi: seq<real>, kappa: real, kind: Kind, info: seq<seq<Transition>>, m: map<seq<nat>, real>, s: nat)
    requires |pi| == 4 && InfoFromHky(info) && s <= 16
    requires forall key :: key in m ==> IsJointState(key) && Code(key) < s
    ensures MutantsBelow(JointFrom(info, s), 4)
    ensures AddedFrom(pi, kappa, kind, m, Accumulate(pi, kappa, kind, m, JointFrom(info, s)), s)
    decreases 16 - s
  {
    if s == 16 {
      assert JointFrom(info, s) == [];
      AddedNothing(pi, kappa, kind, m);
    } else {
      var st := JointState(s);
      var m' := m[st := Get(m, st) + JointExit(pi, kappa, kind, st)];
      var next := s + 1;
      LowerKeys(m, s, Get(m, st) + JointExit(pi, kappa, kind, st));
      AccumulateFrom(pi, kappa, kind, info, m', next);
      AccumulateNext(pi, kappa, kind, info, m, m', s);
    }
  }

  /** One step of AccumulateFrom: the block of state s, then the states above it. */
  lemma AccumulateNext(pi: seq<real>, kappa: real, kind: Kind, info: seq<seq<Transition>>,
                       m: map<seq<nat>, real>, m': map<seq<nat>, real>, s: nat)
    requires |pi| == 4 && InfoFromHky(info) && s < 16
    requires forall key :: key in m ==> IsJointState(key) && Code(key) < s
    requires m' == m[JointState(s) := Get(m, JointState(s)) + JointExit(pi, kappa, kind, JointState(s))]
    requires MutantsBelow(JointFrom(info, s + 1), 4)
    requires AddedFrom(pi, kappa, kind, m', Accumulate(pi, kappa, kind, m', JointFrom(info, s + 1)), s + 1)
    ensures MutantsBelow(JointFrom(info, s), 4)
    ensures AddedFrom(pi, kappa, kind, m, Accumulate(pi, kappa, kind, m, JointFrom(info, s)), s)
  {
    AccumulateBlock(pi, kappa, kind, info, m, s);
    var r := Accumulate(pi, kappa, kind, m', JointFrom(info, s + 1));
    AddedFromStep(pi, kappa, kind, m, r, s);
  }

  /** Adding joint state s to a dictionary of lower states gives one of states below s + 1. */
  lemma LowerKeys(m: map<seq<nat>, real>, s: nat, v: real)
    requires s < 16
    requires forall key :: key in m ==> IsJointState(key) && Code(key) < s
    ensures forall key :: key in m[JointState(s) := v] ==> IsJointState(key) && Code(key) < s + 1
  {
    forall key | key in m[JointState(s) := v]
      ensures IsJointState(key) && Code(key) < s + 1
    {
      CodeOfState(s, key);
    }
  }

  lemma AddedNothing(pi: seq<real>, kappa: real, kind: Kind, m: map<seq<nat>, real>)
    requires |pi| == 4
    ensures AddedFrom(pi, kappa, kind, m, m, 16)
  {
    forall key | IsJointState(key)
      ensures Code(key) < 16
    {
    }
  }

  /** The whole exit-rate dictionary: every joint state, with its reference exit rate. */
  lemma JointExitsMap(pi: seq<real>, kappa: real, kind: Kind)
    requires |pi| == 4
    ensures MutantsBelow(GenJointHky(), 4)
    ensures forall key :: key in Accumulate(pi, kappa, kind, map[], GenJointHky()) <==> IsJointState(key)
    ensures forall key :: IsJointState(key) ==>
      Accumulate(pi, kappa, kind, map[], GenJointHky())[key] == JointExit(pi, kappa, kind, key)
  {
    var info := RowIdxToInfo(GenHky());
    InfoIsOut(info);
    assert GenJointHky() == JointFrom(info, 0);
    AccumulateFrom(pi, kappa, kind, info, map[], 0);
    assert AddedFrom(pi, kappa, kind, map[], Accumulate(pi, kappa, kind, map[], GenJointHky()), 0);
  }

  lemma AddCountedSelected(pi: seq<real>, kappa: real, kind: Kind, acc: map<seq<nat>, real>, t: JointTransition)
    requires |pi| == 4 && t.mutant < 4 && Selected(kind, t.ts, t.tv)
    ensures AddCounted(pi, kappa, kind, acc, t) == acc[t.rowState := Get(acc, t.rowState) + Rate(pi, kappa, t.ts, t.tv, t.mutant)]
  {
  }

  lemma AddCountedSkipped(pi: seq<real>, kappa: real, kind: Kind, acc: map<seq<nat>, real>, t: JointTransition)
    requires |pi| == 4 && t.mutant < 4 && !Selected(kind, t.ts, t.tv)
    ensures AddCounted(pi, kappa, kind, acc, t) == acc
  {
  }

  lemma AccumulateSnoc(pi: seq<real>, kappa: real, kind: Kind, js: seq<JointTransition>, k: nat)
    requires |pi| == 4 && k < |js| && MutantsBelow(js, 4)
    ensures MutantsBelow(js[..k], 4) && MutantsBelow(js[..k + 1], 4)
    ensures Accumulate(pi, kappa, kind, map[], js[..k + 1]) == AddCounted(pi, kappa, kind, Accumulate(pi, kappa, kind, map[], js[..k]), js[k])
  {
    assert js[..k + 1][..k] == js[..k];
  }

  /**
   * get_unnormalized_exits, get_unnormalized_ts_exits and
   * get_unnormalized_tv_exits, told apart by kind: the counted rate of each
   * joint transition is added to the entry of its row state, then the
   * dictionary's items are listed in an unspecified order. Every joint state
   * is listed once, with the sum of its two sites' exit rates of that kind.
   */
  method UnnormalizedExits(pi: seq<real>, kappa: real, kind: Kind) returns (rowStates: seq<seq<nat>>, exitRates: seq<real>)
    requires |pi| == 4
    ensures |rowStates| == |exitRates|
    ensures forall k, l :: 0 <= k < l < |rowStates| ==> rowStates[k] != rowStates[l]
    ensures forall key :: key in rowStates <==> IsJointState(key)
    ensures forall k :: 0 <= k < |rowStates| ==>
      IsJointState(rowStates[k]) && exitRates[k] == JointExit(pi, kappa, kind, rowStates[k])
  {
    var joint := GenJointHky();
    JointExitsMap(pi, kappa, kind);
    var rowStateToExitRate := AccumulateExits(pi, kappa, kind, joint);
    rowStates, exitRates := ListItems(rowStateToExitRate);
  }

  /** The loop of the exit aggregators: the dictionary after all the counted transitions of joint. */
  method AccumulateExits(pi: seq<real>, kappa: real, kind: Kind, joint: seq<JointTransition>)
    returns (rowStateToExitRate: map<seq<nat>, real>)
    requires |pi| == 4 && MutantsBelow(joint, 4)
    ensures rowStateToExitRate == Accumulate(pi, kappa, kind, map[], joint)
  {
    rowStateToExitRate := map[];
    for k := 0 to |joint|
      invariant MutantsBelow(joint[..k], 4)
      invariant rowStateToExitRate == Accumulate(pi, kappa, kind, map[], joint[..k])
    {
      AccumulateSnoc(pi, kappa, kind, joint, k);
      ghost var before := rowStateToExitRate;
      var t := joint[k];
      if Selected(kind, t.ts, t.tv) {
        var exitRate := Rate(pi, kappa, t.ts, t.tv, t.mutant);
        rowStateToExitRate := rowStateToExitRate[t.rowState := Get(rowStateToExitRate, t.rowState) + exitRate];
        AddCountedSelected(pi, kappa, kind, before, t);
      } else {
        AddCountedSkipped(pi, kappa, kind, before, t);
      }
    }
    assert joint[..|joint|] == joint;
  }

  /** dict.items(): every key once, with its value, in an order the model leaves open. */
  method ListItems(m: map<seq<nat>, real>) returns (keys: seq<seq<nat>>, values: seq<real>)
    ensures |keys| == |values|
    ensures forall k, l :: 0 <= k < l < |keys| ==> keys[k] != keys[l]
    ensures forall key :: key in keys <==> key in m
    ensures forall k :: 0 <= k < |keys| ==> keys[k] in m && values[k] == m[keys[k]]
  {
    keys, values := [], [];
    var left := m.Keys;
    while left != {}
      invariant left <= m.Keys
      invariant |keys| == |values|
      invariant forall k, l :: 0 <= k < l < |keys| ==> keys[k] != keys[l]
      invariant forall key :: key in m ==> (key in keys <==> key !in left)
      invariant forall k :: 0 <= k < |keys| ==> keys[k] in m && values[k] == m[keys[k]]
      decreases |left|
    {
      var key :| key in left;
      keys, values := keys + [key], values + [m[key]];
      left := left - {key};
    }
  }

  /** The counted transitions of js, in their order. */
  function SelectJoint(kind: Kind, js: seq<JointTransition>): seq<JointTransition>
  {
    if |js| == 0 then []
    else
      var t := js[|js| - 1];
      SelectJoint(kind, js[..|js| - 1]) + (if Selected(kind, t.ts, t.tv) then [t] else [])
  }

  /** One entry of the transition lists: row state, column state and rate. */
  function Entry(pi: seq<real>, kappa: real, t: JointTransition): (seq<nat>, seq<nat>, real)
    requires |pi| == 4 && t.mutant < 4
  {
    (t.rowState, t.columnState, Rate(pi, kappa, t.ts, t.tv, t.mutant))
  }

  function Entries(pi: seq<real>, kappa: real, js: seq<JointTransition>): (es: seq<(seq<nat>, seq<nat>, real)>)
    requires |pi| == 4 && MutantsBelow(js, 4)
    ensures |es| == |js|
  {
    if |js| == 0 then [] else Entries(pi, kappa, js[..|js| - 1]) + [Entry(pi, kappa, js[|js| - 1])]
  }

  /** Three parallel lists read as one list of triples. */
  function Triples(rows: seq<seq<nat>>, cols: seq<seq<nat>>, rates: seq<real>): seq<(seq<nat>, seq<nat>, real)>
    requires |rows| == |cols| == |rates|
  {
    seq(|rows|, k requires 0 <= k < |rows| => (rows[k], cols[k], rates[k]))
  }

  lemma {:induction false} SelectMutants(kind: Kind, js: seq<JointTransition>, n: nat)
    requires MutantsBelow(js, n)
    ensures MutantsBelow(SelectJoint(kind, js), n)
    decreases |js|
  {
    if |js| > 0 {
      SelectMutants(kind, js[..|js| - 1], n);
    }
  }

  lemma EntriesSnoc(pi: seq<real>, kappa: real, js: seq<JointTransition>, t: JointTransition)
    requires |pi| == 4 && MutantsBelow(js, 4) && t.mutant < 4
    ensures MutantsBelow(js + [t], 4)
    ensures Entries(pi, kappa, js + [t]) == Entries(pi, kappa, js) + [Entry(pi, kappa, t)]
  {
    assert (js + [t])[..|js|] == js;
  }

  /** Every transition carries ts in {0, 1} and tv = 1 - ts. */
  predicate Labelled(js: seq<JointTransition>)
  {
    forall k :: 0 <= k < |js| ==> (js[k].ts == 0 || js[k].ts == 1) && js[k].tv == 1 - js[k].ts
  }

  /** The entries of the ts and of the tv transitions of js together are the entries of js. */
  predicate PartitionHolds(pi: seq<real>, kappa: real, js: seq<JointTransition>)
  {
    |pi| == 4 && MutantsBelow(js, 4)
    && MutantsBelow(SelectJoint(TsChanges, js), 4) && MutantsBelow(SelectJoint(TvChanges, js), 4)
    && multiset(Entries(pi, kappa, SelectJoint(TsChanges, js))) + multiset(Entries(pi, kappa, SelectJoint(TvChanges, js)))
      == multiset(Entries(pi, kappa, js))
  }

  /** Each transition is either a ts or a tv change: the two selections split js. */
  lemma {:induction false} SelectPartition(pi: seq<real>, kappa: real, js: seq<JointTransition>)
    requires |pi| == 4 && MutantsBelow(js, 4) && Labelled(js)
    ensures PartitionHolds(pi, kappa, js)
    decreases |js|
  {
    if |js| == 0 {
      PartitionEmpty(pi, kappa, js);
    } else {
      var init := js[..|js| - 1];
      var t := js[|js| - 1];
      LabelledInit(js);
      SelectPartition(pi, kappa, init);
      if t.ts != 0 {
        PartitionTs(pi, kappa, init, t);
      } else {
        PartitionTv(pi, kappa, init, t);
      }
    }
  }

  lemma PartitionEmpty(pi: seq<real>, kappa: real, js: seq<JointTransition>)
    requires |pi| == 4 && |js| == 0
    ensures PartitionHolds(pi, kappa, js)
  {
    assert SelectJoint(TsChanges, js) == [] && SelectJoint(TvChanges, js) == [];
  }

  /** Dropping the last transition keeps the mutants in range and the labels well-formed. */
  lemma LabelledInit(js: seq<JointTransition>)
    requires |js| > 0 && MutantsBelow(js, 4) && Labelled(js)
    ensures MutantsBelow(js[..|js| - 1], 4) && Labelled(js[..|js| - 1])
    ensures js == js[..|js| - 1] + [js[|js| - 1]]
    ensures js[|js| - 1].mutant < 4 && (js[|js| - 1].ts == 0 || js[|js| - 1].ts == 1) && js[|js| - 1].tv == 1 - js[|js| - 1].ts
  {
  }

  lemma {:induction false} SelectSizes(js: seq<JointTransition>)
    requires Labelled(js)
    ensures |SelectJoint(TsChanges, js)| + |SelectJoint(TvChanges, js)| == |js|
    decreases |js|
  {
    if |js| > 0 {
      SelectSizes(js[..|js| - 1]);
    }
  }

  lemma PartitionTs(pi: seq<real>, kappa: real, init: seq<JointTransition>, t: JointTransition)
    requires |pi| == 4 && PartitionHolds(pi, kappa, init) && t.mutant < 4 && t.ts != 0 && t.tv == 0
    ensures PartitionHolds(pi, kappa, init + [t])
  {
    var js := init + [t];
    var ts, tv := SelectJoint(TsChanges, init), SelectJoint(TvChanges, init);
    SelectSnoc(init, t);
    assert SelectJoint(TsChanges, js) == ts + [t] && SelectJoint(TvChanges, js) == tv;
    EntriesSnoc(pi, kappa, init, t);
    EntriesSnoc(pi, kappa, ts, t);
    var e := Entry(pi, kappa, t);
    MultisetSnoc(Entries(pi, kappa, init), e);
    MultisetSnoc(Entries(pi, kappa, ts), e);
  }

  lemma PartitionTv(pi: seq<real>, kappa: real, init: seq<JointTransition>, t: JointTransition)
    requires |pi| == 4 && PartitionHolds(pi, kappa, init) && t.mutant < 4 && t.ts == 0 && t.tv != 0
    ensures PartitionHolds(pi, kappa, init + [t])
  {
    var js := init + [t];
    var ts, tv := SelectJoint(TsChanges, init), SelectJoint(TvChanges, init);
    SelectSnoc(init, t);
    assert SelectJoint(TsChanges, js) == ts && SelectJoint(TvChanges, js) == tv + [t];
    EntriesSnoc(pi, kappa, init, t);
    EntriesSnoc(pi, kappa, tv, t);
    var e := Entry(pi, kappa, t);
    MultisetSnoc(Entries(pi, kappa, init), e);
    MultisetSnoc(Entries(pi, kappa, tv), e);
  }

  lemma MultisetSnoc(s: seq<(seq<nat>, seq<nat>, real)>, x: (seq<nat>, seq<nat>, real))
    ensures multiset(s + [x]) == multiset(s) + multiset{x}
  {
  }

  lemma SelectSnoc(init: seq<JointTransition>, t: JointTransition)
    ensures SelectJoint(TsChanges, init + [t]) == SelectJoint(TsChanges, init) + (if t.ts != 0 then [t] else [])
    ensures SelectJoint(TvChanges, init + [t]) == SelectJoint(TvChanges, init) + (if t.tv != 0 then [t] else [])
  {
    assert (init + [t])[..|init|] == init;
  }

  /** The loop of the transition aggregators: the counted transitions of joint, as parallel lists. */
  method CollectTransitions(pi: seq<real>, kappa: real, kind: Kind, joint: seq<JointTransition>)
    returns (rowStates: seq<seq<nat>>, columnStates: seq<seq<nat>>, transitionRates: seq<real>)
    requires |pi| == 4 && MutantsBelow(joint, 4)
    ensures MutantsBelow(SelectJoint(kind, joint), 4)
    ensures |rowStates| == |columnStates| == |transitionRates|
    ensures Triples(rowStates, columnStates, transitionRates) == Entries(pi, kappa, SelectJoint(kind, joint))
  {
    rowStates, columnStates, transitionRates := [], [], [];
    for k := 0 to |joint|
      invariant CollectedSoFar(pi, kappa, kind, joint, k, rowStates, columnStates, transitionRates)
    {
      CollectStep(pi, kappa, kind, joint, k, rowStates, columnStates, transitionRates);
      var t := joint[k];
      if Selected(kind, t.ts, t.tv) {
        var exitRate := Rate(pi, kappa, t.ts, t.tv, t.mutant);
        rowStates, columnStates, transitionRates := rowStates + [t.rowState], columnStates + [t.columnState], transitionRates + [exitRate];
      }
    }
    assert joint[..|joint|] == joint;
  }

  /** After k steps the lists hold the entries of the counted transitions among the first k. */
  predicate CollectedSoFar(pi: seq<real>, kappa: real, kind: Kind, joint: seq<JointTransition>, k: nat,
                           rows: seq<seq<nat>>, cols: seq<seq<nat>>, rates: seq<real>)
  {
    |pi| == 4 && k <= |joint| && MutantsBelow(joint, 4) && |rows| == |cols| == |rates|
    && MutantsBelow(SelectJoint(kind, joint[..k]), 4)
    && Triples(rows, cols, rates) == Entries(pi, kappa, SelectJoint(kind, joint[..k]))
  }

  lemma CollectStep(pi: seq<real>, kappa: real, kind: Kind, joint: seq<JointTransition>, k: nat,
                    rows: seq<seq<nat>>, cols: seq<seq<nat>>, rates: seq<real>)
    requires CollectedSoFar(pi, kappa, kind, joint, k, rows, cols, rates) && k < |joint|
    ensures var t := joint[k];
      if Selected(kind, t.ts, t.tv) then
        CollectedSoFar(pi, kappa, kind, joint, k + 1, rows + [t.rowState], cols + [t.columnState],
                       rates + [Rate(pi, kappa, t.ts, t.tv, t.mutant)])
      else CollectedSoFar(pi, kappa, kind, joint, k + 1, rows, cols, rates)
  {
    var t := joint[k];
    var before := SelectJoint(kind, joint[..k]);
    assert joint[..k + 1][..k] == joint[..k];
    if Selected(kind, t.ts, t.tv) {
      assert SelectJoint(kind, joint[..k + 1]) == before + [t];
      TriplesSnoc(rows, cols, rates, t.rowState, t.columnState, Rate(pi, kappa, t.ts, t.tv, t.mutant));
      EntriesSnoc(pi, kappa, before, t);
    } else {
      assert SelectJoint(kind, joint[..k + 1]) == before;
    }
  }

  /**
   * get_unnormalized_ts_transitions and get_unnormalized_tv_transitions, told
   * apart by kind: the row state, column state and rate of every joint
   * transition the kind counts, in the generator's order.
   */
  method UnnormalizedKindTransitions(pi: seq<real>, kappa: real, kind: Kind)
    returns (rowStates: seq<seq<nat>>, columnStates: seq<seq<nat>>, transitionRates: seq<real>)
    requires |pi| == 4
    ensures MutantsBelow(GenJointHky(), 4) && MutantsBelow(SelectJoint(kind, GenJointHky()), 4)
    ensures |rowStates| == |columnStates| == |transitionRates|
    ensures Triples(rowStates, columnStates, transitionRates) == Entries(pi, kappa, SelectJoint(kind, GenJointHky()))
    ensures forall k :: 0 <= k < |rowStates| ==> Selected(kind, SelectJoint(kind, GenJointHky())[k].ts, SelectJoint(kind, GenJointHky())[k].tv)
  {
    var joint := GenJointHky();
    JointMutants(joint);
    rowStates, columnStates, transitionRates := CollectTransitions(pi, kappa, kind, joint);
    SelectedAll(kind, joint);
  }

  lemma JointMutants(joint: seq<JointTransition>)
    requires joint == GenJointHky()
    ensures MutantsBelow(joint, 4) && Labelled(joint)
  {
    forall k | 0 <= k < |joint|
      ensures joint[k].mutant < 4
      ensures (joint[k].ts == 0 || joint[k].ts == 1) && joint[k].tv == 1 - joint[k].ts
    {
      assert JointEntryOk(joint, k);
    }
  }

  lemma {:induction false} SelectedAll(kind: Kind, js: seq<JointTransition>)
    ensures forall k :: 0 <= k < |SelectJoint(kind, js)| ==> Selected(kind, SelectJoint(kind, js)[k].ts, SelectJoint(kind, js)[k].tv)
    decreases |js|
  {
    if |js| > 0 {
      SelectedAll(kind, js[..|js| - 1]);
    }
  }

  /**
   * get_unnormalized_transitions: the ts lists followed by the tv lists; as a
   * collection, every one of the 96 joint transitions occurs exactly once.
   */
  method UnnormalizedTransitions(pi: seq<real>, kappa: real)
    returns (rowStates: seq<seq<nat>>, columnStates: seq<seq<nat>>, transitionRates: seq<real>)
    requires |pi| == 4
    ensures MutantsBelow(GenJointHky(), 4)
    ensures MutantsBelow(SelectJoint(TsChanges, GenJointHky()), 4) && MutantsBelow(SelectJoint(TvChanges, GenJointHky()), 4)
    ensures |rowStates| == |columnStates| == |transitionRates| == 96
    ensures Triples(rowStates, columnStates, transitionRates) ==
      Entries(pi, kappa, SelectJoint(TsChanges, GenJointHky())) + Entries(pi, kappa, SelectJoint(TvChanges, GenJointHky()))
    ensures multiset(Triples(rowStates, columnStates, transitionRates)) == multiset(Entries(pi, kappa, GenJointHky()))
  {
    var tsRow, tsCol, tsRate := UnnormalizedKindTransitions(pi, kappa, TsChanges);
    var tvRow, tvCol, tvRate := UnnormalizedKindTransitions(pi, kappa, TvChanges);
    rowStates := tsRow + tvRow;
    columnStates := tsCol + tvCol;
    transitionRates := tsRate + tvRate;
    TriplesAppend(tsRow, tsCol, tsRate, tvRow, tvCol, tvRate);
    AllTransitionsOnce(pi, kappa);
  }

  /** The ts and the tv transitions together are all 96 joint transitions, each once. */
  lemma AllTransitionsOnce(pi: seq<real>, kappa: real)
    requires |pi| == 4
    ensures MutantsBelow(GenJointHky(), 4)
    ensures MutantsBelow(SelectJoint(TsChanges, GenJointHky()), 4) && MutantsBelow(SelectJoint(TvChanges, GenJointHky()), 4)
    ensures |SelectJoint(TsChanges, GenJointHky())| + |SelectJoint(TvChanges, GenJointHky())| == 96
    ensures multiset(Entries(pi, kappa, SelectJoint(TsChanges, GenJointHky())) + Entries(pi, kappa, SelectJoint(TvChanges, GenJointHky())))
      == multiset(Entries(pi, kappa, GenJointHky()))
  {
    var joint := GenJointHky();
    JointMutants(joint);
    SelectPartition(pi, kappa, joint);
    SelectSizes(joint);
    assert PartitionHolds(pi, kappa, joint);
  }

  lemma TriplesSnoc(rows: seq<seq<nat>>, cols: seq<seq<nat>>, rates: seq<real>, r: seq<nat>, c: seq<nat>, x: real)
    requires |rows| == |cols| == |rates|
    ensures Triples(rows + [r], cols + [c], rates + [x]) == Triples(rows, cols, rates) + [(r, c, x)]
  {
  }

  lemma TriplesAppend(r1: seq<seq<nat>>, c1: seq<seq<nat>>, x1: seq<real>, r2: seq<seq<nat>>, c2: seq<seq<nat>>, x2: seq<real>)
    requires |r1| == |c1| == |x1| && |r2| == |c2| == |x2|
    ensures Triples(r1 + r2, c1 + c2, x1 + x2) == Triples(r1, c1, x1) + Triples(r2, c2, x2)
  {
  }

  /** get_root_prior: the four joint states [i, i] with the nucleotide distribution pi. */
  datatype RootPrior = RootPrior(states: seq<seq<int>>, probabilities: seq<real>)

  function GetRootPrior(pi: seq<real>): RootPrior
  {
    RootPrior(seq(4, i => [i, i]), pi)
  }

  /**
   * As a prior over the 16 joint states, the root prior puts pi[i] on the
   * state [i, i] (flat index 5i) and nothing on the states whose sites differ.
   */
  lemma RootPriorVector(pi: seq<real>, s: nat)
    requires |pi| == 4 && s < 16
    ensures var p := GetRootPrior(pi);
      (forall k :: 0 <= k < 4 ==> InBounds(p.states[k], [4, 4]))
      && PriorSpec([4, 4], p.states, p.probabilities)[s] == if s % 5 == 0 then pi[s / 5] else 0.0
  {
    var p := GetRootPrior(pi);
    var shape: seq<nat> := [4, 4];
    forall k | 0 <= k < 4
      ensures InBounds(p.states[k], shape) && Ravel(p.states[k], shape) == 5 * k
    {
      RavelPair(k, k);
    }
    assert NStates(shape) == 16 by {
      assert shape[..1] == [4] && shape[..1][..0] == [];
    }
    PriorVectorMeaning(shape, p.states, p.probabilities, s);
    if s % 5 == 0 {
      assert s == Ravel(p.states[s / 5], shape);
    }
  }

  lemma RavelPair(a: nat, b: nat)
    requires a < 4 && b < 4
    ensures InBounds([a, b], [4, 4]) && Ravel([a, b], [4, 4]) == 4 * a + b
  {
    var idx: seq<int> := [a, b];
    var shape: seq<nat> := [4, 4];
    assert idx[..1] == [a] && shape[..1] == [4];
    assert idx[..1][..0] == [] && shape[..1][..0] == [];
    assert Ravel([a], [4]) == Ravel([], []) * 4 + a;
    assert Ravel(idx, shape) == Ravel([a], [4]) * 4 + b;
  }
}
