/**
 * The 2-opt demonstration (cpp/tsp.cpp): a tour `perm` over the cities,
 * started as the identity and improved by moves that reverse a block of
 * consecutive tour positions, each move done as rotate / reverse prefix /
 * rotate back on the vector in place. The distance test that decides
 * whether to move is a parameter (`gain`). `draw` writes one frame with the
 * tour's edges and a small labelled square around each city.
 */
module Tsp {
  import opened Lexer
  import opened TextParser
  import opened FramePrinter
  import opened RoundTrip
  import opened ColorParse

  /* ---------------------------------------------------------- permutations */

  /** `0, 1, ..., n - 1`: what `std::iota` fills in. */
  function Identity(n: nat): (s: seq<int>)
    ensures |s| == n && forall k :: 0 <= k < n ==> s[k] == k
  {
    seq(n, k requires 0 <= k < n => k)
  }

  /** A tour: every city `0 .. n - 1` exactly once. */
  predicate IsPermutation(s: seq<int>, n: nat)
  {
    |s| == n && multiset(s) == multiset(Identity(n))
  }

  /** Every entry of a tour names a city. */
  lemma PermutationInRange(s: seq<int>, n: nat)
    requires IsPermutation(s, n)
    ensures forall k :: 0 <= k < |s| ==> 0 <= s[k] < n
  {
    forall k | 0 <= k < |s|
      ensures 0 <= s[k] < n
    {
      assert s[k] in multiset(s);
      assert s[k] in multiset(Identity(n));
      var j :| 0 <= j < n && Identity(n)[j] == s[k];
    }
  }

  /** `a + b` reduced into `0 .. n - 1`, for `0 <= a + b < 2 * n`: the source's `% N` on such sums. */
  function Wrap(a: int, n: int): (w: int)
    requires 0 <= a < 2 * n
    ensures 0 <= w < n && (w == a || w == a - n)
  {
    if a < n then a else a - n
  }

  /** `std::rotate(begin, begin + i, end)`: entry `k` is the old entry `k + i`, cyclically. */
  function RotateLeft(s: seq<int>, i: nat): (r: seq<int>)
    requires i <= |s|
    ensures |r| == |s|
  {
    s[i..] + s[..i]
  }

  /** Entry `k` of the rotation is the old entry `k + i`, cyclically. */
  lemma RotateLeftAt(s: seq<int>, i: nat, k: nat)
    requires i <= |s| && k < |s|
    ensures RotateLeft(s, i)[k] == s[Wrap(k + i, |s|)]
  {
  }

  function Reverse(s: seq<int>): (r: seq<int>)
    ensures |r| == |s|
  {
    if s == [] then [] else Reverse(s[1..]) + [s[0]]
  }

  /** `std::reverse(begin, begin + l)`: the first `l` entries in the opposite order. */
  function ReversePrefix(s: seq<int>, l: nat): (r: seq<int>)
    requires l <= |s|
    ensures |r| == |s|
  {
    Reverse(s[..l]) + s[l..]
  }

  /** The 2-opt move of the improvement loop; the rotations are skipped for `i == 0`. */
  function Moved(s: seq<int>, i: nat, l: nat): (r: seq<int>)
    requires i < |s| && l <= |s|
    ensures |r| == |s|
  {
    if i > 0 then RotateLeft(ReversePrefix(RotateLeft(s, i), l), |s| - i) else ReversePrefix(s, l)
  }

  lemma {:induction false} ReverseIndex(s: seq<int>)
    ensures forall k :: 0 <= k < |s| ==> Reverse(s)[k] == s[|s| - 1 - k]
    decreases |s|
  {
    if s != [] {
      ReverseIndex(s[1..]);
      assert Reverse(s) == Reverse(s[1..]) + [s[0]];
    }
  }

  lemma {:induction false} ReversePermutes(s: seq<int>)
    ensures multiset(Reverse(s)) == multiset(s)
    decreases |s|
  {
    if s != [] {
      ReversePermutes(s[1..]);
      assert s == [s[0]] + s[1..];
    }
  }

  lemma ReversePrefixIndex(s: seq<int>, l: nat)
    requires l <= |s|
    ensures forall k :: 0 <= k < |s| ==> ReversePrefix(s, l)[k] == (if k < l then s[l - 1 - k] else s[k])
  {
    ReverseIndex(s[..l]);
  }

  lemma ReversePrefixAt(s: seq<int>, l: nat, k: nat)
    requires l <= |s| && k < |s|
    ensures ReversePrefix(s, l)[k] == (if k < l then s[l - 1 - k] else s[k])
  {
    ReversePrefixIndex(s, l);
  }

  /** The tour position `d` steps after position `i`, cyclically: the source's `(i + d) % N`. */
  function Cyclic(i: nat, d: nat, n: nat): (k: nat)
    requires i < n && d < n
    ensures k < n && (k == i + d || k == i + d - n)
  {
    Wrap(i + d, n)
  }

  /** `Cyclic` is the source's `(i + d) % N`; `(i - 1 + N) % N` is `Cyclic(i, N - 1, N)`. */
  lemma CyclicMod(i: nat, d: nat, n: nat)
    requires i < n && d < n
    ensures (i + d) % n == Cyclic(i, d, n)
  {
    if i + d < n {
      assert (i + d) / n == 0;
    } else {
      assert (i + d) / n == 1;
    }
  }

  /** Rotating back by `n - i` undoes the step of `i`. */
  lemma CyclicBack(i: nat, d: nat, n: nat)
    requires i < n && d < n
    ensures Wrap(Cyclic(i, d, n) + (n - i), n) == d
  {
  }

  /** One position of the moved tour: inside the block it holds the mirrored city, outside the old one. */
  lemma MovedAt(s: seq<int>, i: nat, l: nat, d: nat)
    requires i < |s| && l <= |s| && d < |s|
    ensures d < l ==> Moved(s, i, l)[Cyclic(i, d, |s|)] == s[Cyclic(i, l - 1 - d, |s|)]
    ensures d >= l ==> Moved(s, i, l)[Cyclic(i, d, |s|)] == s[Cyclic(i, d, |s|)]
  {
    var n := |s|;
    var k := Cyclic(i, d, n);
    if i > 0 {
      var r := RotateLeft(s, i);
      var p := ReversePrefix(r, l);
      assert Moved(s, i, l) == RotateLeft(p, n - i);
      RotateLeftAt(p, n - i, k);
      CyclicBack(i, d, n);
      ReversePrefixAt(r, l, d);
      if d < l {
        RotateLeftAt(s, i, l - 1 - d);
      } else {
        RotateLeftAt(s, i, d);
      }
    } else {
      assert Moved(s, i, l) == ReversePrefix(s, l);
      ReversePrefixAt(s, l, d);
    }
  }

  /**
   * The move reverses the `l` cyclically consecutive tour positions starting
   * at `i`, and leaves every other position as it was.
   */
  lemma MoveReversesBlock(s: seq<int>, i: nat, l: nat)
    requires i < |s| && l <= |s|
    ensures forall d :: 0 <= d < l ==> Moved(s, i, l)[Cyclic(i, d, |s|)] == s[Cyclic(i, l - 1 - d, |s|)]
    ensures forall d :: l <= d < |s| ==> Moved(s, i, l)[Cyclic(i, d, |s|)] == s[Cyclic(i, d, |s|)]
  {
    forall d | 0 <= d < |s|
      ensures d < l ==> Moved(s, i, l)[Cyclic(i, d, |s|)] == s[Cyclic(i, l - 1 - d, |s|)]
      ensures d >= l ==> Moved(s, i, l)[Cyclic(i, d, |s|)] == s[Cyclic(i, d, |s|)]
    {
      MovedAt(s, i, l, d);
    }
  }

  /**
   * The 2-opt exchange the gain test is about: with `j = (i + l) % N` and
   * `2 <= l <= N - 2`, the positions `i - 1` and `j` keep their cities, and
   * the tour edges `(i-1, i)` and `(j-1, j)` become `(i-1, j-1)` and `(i, j)`.
   */
  lemma MoveExchangesEdges(s: seq<int>, i: nat, l: nat)
    requires i < |s| && 2 <= l <= |s| - 2
    ensures var n, f := |s|, Moved(s, i, l);
            var j, before, jBefore := Cyclic(i, l, n), Cyclic(i, n - 1, n), Cyclic(i, l - 1, n);
            && f[before] == s[before] && f[j] == s[j]
            && f[i] == s[jBefore] && f[jBefore] == s[i]
  {
    var n, f := |s|, Moved(s, i, l);
    var j, before, jBefore := Cyclic(i, l, n), Cyclic(i, n - 1, n), Cyclic(i, l - 1, n);
    MovedAt(s, i, l, n - 1);
    assert f[before] == s[before];
    MovedAt(s, i, l, l);
    assert f[j] == s[j];
    MovedAt(s, i, l, 0);
    assert Cyclic(i, 0, n) == i;
    assert f[i] == s[jBefore];
    MovedAt(s, i, l, l - 1);
    assert f[jBefore] == s[Cyclic(i, 0, n)];
  }

  /** A move keeps the tour a tour. */
  lemma MovePermutes(s: seq<int>, i: nat, l: nat)
    requires i < |s| && l <= |s|
    ensures multiset(Moved(s, i, l)) == multiset(s)
  {
    if i > 0 {
      var r := RotateLeft(s, i);
      var p := ReversePrefix(r, l);
      var q := RotateLeft(p, |s| - i);
      assert Moved(s, i, l) == q;
      assert multiset(r) == multiset(s) by { RotatePermutes(s, i); }
      assert multiset(p) == multiset(r) by { ReversePrefixPermutes(r, l); }
      assert multiset(q) == multiset(p) by { RotatePermutes(p, |s| - i); }
    } else {
      ReversePrefixPermutes(s, l);
    }
  }

  lemma RotatePermutes(s: seq<int>, i: nat)
    requires i <= |s|
    ensures multiset(RotateLeft(s, i)) == multiset(s)
  {
    assert s == s[..i] + s[i..];
  }

  lemma ReversePrefixPermutes(s: seq<int>, l: nat)
    requires l <= |s|
    ensures multiset(ReversePrefix(s, l)) == multiset(s)
  {
    ReversePermutes(s[..l]);
    assert s == s[..l] + s[l..];
  }

  /* -------------------------------------------------------- in-place steps */

  /** `std::iota(perm.begin(), perm.end(), 0)` on a fresh vector of `n` entries. */
  method InitPerm(n: nat) returns (perm: array<int>)
    ensures fresh(perm) && perm[..] == Identity(n) && IsPermutation(perm[..], n)
  {
    perm := new int[n];
    var k := 0;
    while k < n
      invariant 0 <= k <= n
      invariant forall m :: 0 <= m < k ==> perm[m] == m
    {
      perm[k] := k;
      k := k + 1;
    }
  }

  /** `std::rotate(perm.begin(), perm.begin() + i, perm.end())`. */
  method Rotate(a: array<int>, i: nat)
    requires i <= a.Length
    modifies a
    ensures a[..] == RotateLeft(old(a[..]), i)
  {
    var s := a[..];
    forall k | 0 <= k < a.Length {
      a[k] := s[Wrap(k + i, a.Length)];
    }
    forall k | 0 <= k < a.Length
      ensures a[k] == RotateLeft(s, i)[k]
    {
      RotateLeftAt(s, i, k);
    }
  }

  /** `std::reverse(perm.begin(), perm.begin() + l)`: swaps from both ends towards the middle. */
  method ReverseFront(a: array<int>, l: nat)
    requires l <= a.Length
    modifies a
    ensures a[..] == ReversePrefix(old(a[..]), l)
  {
    ghost var s := a[..];
    var lo := 0;
    while lo + lo + 1 < l
      invariant lo + lo <= l
      invariant forall k :: 0 <= k < lo ==> a[k] == s[l - 1 - k] && a[l - 1 - k] == s[k]
      invariant forall k :: lo <= k < l - lo ==> a[k] == s[k]
      invariant forall k :: l <= k < a.Length ==> a[k] == s[k]
    {
      a[lo], a[l - 1 - lo] := a[l - 1 - lo], a[lo];
      lo := lo + 1;
    }
    ReversePrefixIndex(s, l);
    forall k | 0 <= k < a.Length
      ensures a[k] == ReversePrefix(s, l)[k]
    {
      if k < lo {
        assert a[k] == s[l - 1 - k];
        assert ReversePrefix(s, l)[k] == s[l - 1 - k];
      } else if k >= l {
        assert a[k] == s[k];
        assert ReversePrefix(s, l)[k] == s[k];
      } else if lo <= k < l - lo {
        assert l - 1 - k == k;
        assert a[k] == s[k];
      } else if l - lo <= k < l {
        var m := l - 1 - k;
        assert 0 <= m < lo && a[l - 1 - m] == s[m];
      }
    }
  }

  /** One 2-opt move on the tour, in place. */
  method TwoOptMove(perm: array<int>, i: nat, l: nat)
    requires i < perm.Length && l <= perm.Length
    modifies perm
    ensures perm[..] == Moved(old(perm[..]), i, l)
  {
    ghost var s0 := perm[..];
    if i > 0 {
      Rotate(perm, i);
    }
    ghost var s1 := perm[..];
    ReverseFront(perm, l);
    ghost var s2 := perm[..];
    if i > 0 {
      Rotate(perm, perm.Length - i);
      assert perm[..] == RotateLeft(ReversePrefix(RotateLeft(s0, i), l), |s0| - i) by {
        assert s1 == RotateLeft(s0, i) && s2 == ReversePrefix(s1, l) && |s0| == perm.Length;
      }
    }
  }

  /** The smallest `diff` for which the loop applies a move: `1e-9`. */
  const MinGain: real := 0.000000001

  /** No start `i` and block length `2 <= l <= N - 2` has a gain large enough for a move. */
  predicate NoMoveLeft(s: seq<int>, gain: (seq<int>, int, int) -> real)
  {
    forall i, l :: 0 <= i < |s| && 2 <= l <= |s| - 2 ==> gain(s, i, l) < MinGain
  }

  /** Tour `b` is tour `a` after the 2-opt move `step` (start, block length), which the loop applies. */
  predicate IsMove(a: seq<int>, b: seq<int>, step: (int, int), gain: (seq<int>, int, int) -> real)
  {
    && 0 <= step.0 < |a| && 2 <= step.1 <= |a| - 2
    && gain(a, step.0, step.1) >= MinGain
    && b == Moved(a, step.0, step.1)
  }

  /** Each tour of `tours` comes from the one before it by the move of the same index in `steps`. */
  predicate MoveChain(tours: seq<seq<int>>, steps: seq<(int, int)>, gain: (seq<int>, int, int) -> real)
  {
    && |tours| == |steps| + 1
    && forall m :: 0 <= m < |steps| ==> IsMove(tours[m], tours[m + 1], steps[m], gain)
  }

  lemma MoveChainExtend(tours: seq<seq<int>>, steps: seq<(int, int)>, gain: (seq<int>, int, int) -> real,
                        b: seq<int>, step: (int, int))
    requires MoveChain(tours, steps, gain)
    requires IsMove(tours[|tours| - 1], b, step, gain)
    ensures MoveChain(tours + [b], steps + [step], gain)
  {
    var ts, ss := tours + [b], steps + [step];
    forall m | 0 <= m < |ss|
      ensures IsMove(ts[m], ts[m + 1], ss[m], gain)
    {
      if m < |steps| {
        assert ts[m] == tours[m] && ts[m + 1] == tours[m + 1] && ss[m] == steps[m];
      }
    }
  }

  /** A chain of moves keeps the multiset of entries from its first tour to its last. */
  lemma {:induction false} ChainPermutes(tours: seq<seq<int>>, steps: seq<(int, int)>, gain: (seq<int>, int, int) -> real)
    requires MoveChain(tours, steps, gain)
    ensures multiset(tours[|tours| - 1]) == multiset(tours[0])
    decreases |steps|
  {
    if steps != [] {
      var k := |steps| - 1;
      assert IsMove(tours[k], tours[k + 1], steps[k], gain);
      MovePermutes(tours[k], steps[k].0, steps[k].1);
      assert MoveChain(tours[..k + 1], steps[..k], gain) by {
        forall m | 0 <= m < k
          ensures IsMove(tours[..k + 1][m], tours[..k + 1][m + 1], steps[..k][m], gain)
        {
          assert IsMove(tours[m], tours[m + 1], steps[m], gain);
        }
      }
      ChainPermutes(tours[..k + 1], steps[..k], gain);
    }
  }

  /** The total of a list of counts. */
  function Sum(s: seq<nat>): nat
  {
    if s == [] then 0 else Sum(s[..|s| - 1]) + s[|s| - 1]
  }

  lemma SumAppend(s: seq<nat>, x: nat)
    ensures Sum(s + [x]) == Sum(s) + x
  {
    assert (s + [x])[..|s|] == s;
  }

  /** Two chains, the second starting where the first ends, make one chain. */
  lemma MoveChainConcat(t1: seq<seq<int>>, s1: seq<(int, int)>, t2: seq<seq<int>>, s2: seq<(int, int)>,
                        gain: (seq<int>, int, int) -> real)
    requires MoveChain(t1, s1, gain) && MoveChain(t2, s2, gain)
    requires t1[|t1| - 1] == t2[0]
    ensures MoveChain(t1 + t2[1..], s1 + s2, gain)
    ensures (t1 + t2[1..])[0] == t1[0]
    ensures (t1 + t2[1..])[|t1 + t2[1..]| - 1] == t2[|t2| - 1]
  {
    var ts, ss := t1 + t2[1..], s1 + s2;
    forall m | 0 <= m < |ss|
      ensures IsMove(ts[m], ts[m + 1], ss[m], gain)
    {
      if m < |s1| {
        assert ts[m] == t1[m] && ts[m + 1] == t1[m + 1] && ss[m] == s1[m];
      } else {
        var k := m - |s1|;
        assert ts[m] == t2[k] && ts[m + 1] == t2[k + 1] && ss[m] == s2[k];
        assert IsMove(t2[k], t2[k + 1], s2[k], gain);
      }
    }
  }

  /**
   * One round of the improvement loop: every start `i` and block length
   * `2 <= l <= N - 2` is tried in order, on the tour as the earlier moves of
   * the round left it, and moved when `gain` is at least `1e-9`. Returns the
   * number of moves and `shrunk`; `tours`/`steps` record the moves applied.
   */
  method Round(perm: array<int>, gain: (seq<int>, int, int) -> real)
    returns (count: nat, shrunk: bool, ghost tours: seq<seq<int>>, ghost steps: seq<(int, int)>)
    modifies perm
    ensures shrunk <==> count > 0
    ensures MoveChain(tours, steps, gain) && |steps| == count
    ensures tours[0] == old(perm[..]) && tours[|tours| - 1] == perm[..]
    ensures count == 0 ==> NoMoveLeft(perm[..], gain)
  {
    var n := perm.Length;
    shrunk := false;
    count := 0;
    tours := [perm[..]];
    steps := [];
    ghost var start := perm[..];
    var i := 0;
    while i < n
      invariant 0 <= i <= n
      invariant shrunk <==> count > 0
      invariant count == 0 ==> perm[..] == start
      invariant count == 0 ==> forall i', l' :: 0 <= i' < i && 2 <= l' <= n - 2 ==> gain(start, i', l') < MinGain
      invariant MoveChain(tours, steps, gain) && |steps| == count
      invariant tours[0] == start && tours[|tours| - 1] == perm[..]
    {
      var l := 2;
      while l <= n - 2
        invariant 2 <= l
        invariant shrunk <==> count > 0
        invariant count == 0 ==> perm[..] == start
        invariant count == 0 ==> forall i', l' :: 0 <= i' < i && 2 <= l' <= n - 2 ==> gain(start, i', l') < MinGain
        invariant count == 0 ==> forall l' :: 2 <= l' < l && l' <= n - 2 ==> gain(start, i, l') < MinGain
        invariant MoveChain(tours, steps, gain) && |steps| == count
        invariant tours[0] == start && tours[|tours| - 1] == perm[..]
      {
        var diff := gain(perm[..], i, l);
        if diff >= MinGain {
          shrunk := shrunk || diff > 0.0;
          TwoOptMove(perm, i, l);
          MoveChainExtend(tours, steps, gain, perm[..], (i, l));
          tours := tours + [perm[..]];
          steps := steps + [(i, l)];
          count := count + 1;
        }
        l := l + 1;
      }
      i := i + 1;
    }
  }

  /**
   * The improvement loop: at most 100 rounds, stopping after the first
   * round that moved nothing. Returns the number of rounds run and the
   * number of moves of the last round; `moves` records the number of moves
   * of every round, and `tours`/`steps` every move applied, in order.
   */
  method Optimize(perm: array<int>, gain: (seq<int>, int, int) -> real)
    returns (rounds: nat, lastMoves: nat, ghost moves: seq<nat>,
             ghost tours: seq<seq<int>>, ghost steps: seq<(int, int)>)
    modifies perm
    ensures 1 <= rounds <= 100
    ensures |moves| == rounds && moves[rounds - 1] == lastMoves
    ensures forall k :: 0 <= k < rounds - 1 ==> moves[k] > 0
    ensures rounds < 100 ==> lastMoves == 0
    ensures lastMoves == 0 ==> NoMoveLeft(perm[..], gain)
    ensures MoveChain(tours, steps, gain)
    ensures tours[0] == old(perm[..]) && tours[|tours| - 1] == perm[..]
    ensures Sum(moves) == |steps|
    ensures multiset(perm[..]) == multiset(old(perm[..]))
    ensures IsPermutation(old(perm[..]), perm.Length) ==> IsPermutation(perm[..], perm.Length)
  {
    rounds := 0;
    lastMoves := 0;
    moves := [];
    tours := [perm[..]];
    steps := [];
    while rounds < 100
      invariant rounds <= 100 && |moves| == rounds
      invariant rounds > 0 ==> moves[rounds - 1] == lastMoves
      invariant forall k :: 0 <= k < rounds ==> moves[k] > 0
      invariant rounds == 0 ==> lastMoves == 0
      invariant MoveChain(tours, steps, gain)
      invariant tours[0] == old(perm[..]) && tours[|tours| - 1] == perm[..]
      invariant Sum(moves) == |steps|
    {
      var shrunk;
      ghost var ts, ss;
      lastMoves, shrunk, ts, ss := Round(perm, gain);
      MoveChainConcat(tours, steps, ts, ss, gain);
      tours, steps := tours + ts[1..], steps + ss;
      rounds := rounds + 1;
      SumAppend(moves, lastMoves);
      moves := moves + [lastMoves];
      if !shrunk {
        break;
      }
    }
    ChainPermutes(tours, steps, gain);
  }

  /* ------------------------------------------------------------------ draw */

  /** A coordinate of `MAX_X + 1 = 21` or `-1`, and the half side `0.1` of a city's square, in millionths. */
  const FrameLow: int := -1000000
  const FrameHigh: int := 21000000
  const Half: int := 100000

  /** The tour position after `i`: the source's `(i + 1) % N`. */
  function Next(i: nat, n: nat): (k: nat)
    requires i < n
    ensures k < n && (k == i + 1 || (i + 1 == n && k == 0))
  {
    Wrap(i + 1, n)
  }

  /** `Next` is the source's `(i + 1) % N`. */
  lemma NextMod(i: nat, n: nat)
    requires i < n
    ensures (i + 1) % n == Next(i, n)
  {
    if i + 1 == n {
      assert (i + 1) % n == n % n == 0;
    } else {
      assert (i + 1) / n == 0;
    }
  }

  /** Edge `i` of the tour: from city `perm[i]` to city `perm[(i + 1) % N]`, unlabelled. */
  function Edge(v: seq<FPos>, perm: seq<int>, i: nat): (d: Drawn)
    requires |perm| == |v| && i < |v|
    requires forall k :: 0 <= k < |perm| ==> 0 <= perm[k] < |v|
    ensures d.DrawnPath? && d.msg == "" && |d.ps| == 2
  {
    DrawnPath("", [v[perm[i]], v[perm[Next(i, |v|)]]])
  }

  /** City `i`'s square, labelled with its number. */
  function Mark(v: seq<FPos>, i: nat): (d: Drawn)
    requires i < |v|
    ensures d.DrawnRect? && d.msg == NatToDigits(i)
  {
    DrawnRect(NatToDigits(i), FPos(v[i].x - Half, v[i].y - Half), FPos(v[i].x + Half, v[i].y + Half))
  }

  function Edges(v: seq<FPos>, perm: seq<int>): (ds: seq<Drawn>)
    requires |perm| == |v|
    requires forall k :: 0 <= k < |perm| ==> 0 <= perm[k] < |v|
    ensures |ds| == |v| && forall i :: 0 <= i < |v| ==> ds[i] == Edge(v, perm, i)
  {
    seq(|v|, i requires 0 <= i < |v| => Edge(v, perm, i))
  }

  function Marks(v: seq<FPos>): (ds: seq<Drawn>)
    ensures |ds| == |v| && forall i :: 0 <= i < |v| ==> ds[i] == Mark(v, i)
  {
    seq(|v|, i requires 0 <= i < |v| => Mark(v, i))
  }

  /** What one call of `draw` writes: the header, the `N` edges of the tour, then the `N` squares. */
  function DrawnFrame(v: seq<FPos>, perm: seq<int>): (w: Written)
    requires |perm| == |v|
    requires forall k :: 0 <= k < |perm| ==> 0 <= perm[k] < |v|
    ensures w.min == FPos(FrameLow, FrameLow) && w.max == FPos(FrameHigh, FrameHigh)
    ensures w.ds == Edges(v, perm) + Marks(v)
  {
    Written(FPos(FrameLow, FrameLow), FPos(FrameHigh, FrameHigh), Edges(v, perm) + Marks(v))
  }

  /** `draw`: the two loops, collecting the elements they print. */
  method Draw(v: seq<FPos>, perm: array<int>) returns (w: Written)
    requires perm.Length == |v|
    requires forall k :: 0 <= k < perm.Length ==> 0 <= perm[k] < |v|
    ensures w == DrawnFrame(v, perm[..])
  {
    var n := |v|;
    var tour := perm[..];
    var edges: seq<Drawn> := [];
    var i := 0;
    while i < n
      invariant 0 <= i <= n && |edges| == i
      invariant forall k :: 0 <= k < i ==> edges[k] == Edge(v, tour, k)
    {
      var p := v[tour[i]];
      var q := v[tour[(i + 1) % n]];
      NextMod(i, n);
      edges := edges + [DrawnPath("", [p, q])];
      i := i + 1;
    }
    var marks: seq<Drawn> := [];
    i := 0;
    while i < n
      invariant 0 <= i <= n && |marks| == i
      invariant forall k :: 0 <= k < i ==> marks[k] == Mark(v, k)
    {
      var p := v[i];
      marks := marks + [DrawnRect(NatToDigits(i), FPos(p.x - Half, p.y - Half), FPos(p.x + Half, p.y + Half))];
      i := i + 1;
    }
    assert edges == Edges(v, tour);
    assert marks == Marks(v);
    w := Written(FPos(FrameLow, FrameLow), FPos(FrameHigh, FrameHigh), edges + marks);
  }

  /** The drawn edges close up into the tour: each edge starts where the previous one ended. */
  lemma EdgesFormTour(v: seq<FPos>, perm: seq<int>)
    requires |perm| == |v|
    requires forall k :: 0 <= k < |perm| ==> 0 <= perm[k] < |v|
    ensures forall i :: 0 <= i < |v| ==> Edge(v, perm, i).ps[1] == Edge(v, perm, Next(i, |v|)).ps[0]
    ensures forall i :: 0 <= i < |v| ==> Edge(v, perm, i).ps[0] == v[perm[i]]
  {
  }

  /** A number's digits never hold `}`, so they can be a label. */
  lemma DigitsClosable(i: nat)
    ensures Closable(NatToDigits(i))
  {
    var m := NatToDigits(i);
    forall k | 0 <= k < |m|
      ensures m[k] != '}'
    {
      assert IsDigit(m[k]);
    }
  }

  /** What `draw` writes is read back by the scene parser as one frame holding exactly those elements. */
  lemma DrawReadBack(v: seq<FPos>, perm: seq<int>, pal: Palette)
    requires |perm| == |v|
    requires forall k :: 0 <= k < |perm| ==> 0 <= perm[k] < |v|
    ensures var w := DrawnFrame(v, perm);
            MultiParse(FramesText([w]), pal) == ([ExpectedFrame(w.min, w.max, w.ds)], "")
  {
    var w := DrawnFrame(v, perm);
    var es, ms := Edges(v, perm), Marks(v);
    forall k | 0 <= k < |w.ds|
      ensures Closable(w.ds[k].msg)
    {
      if k < |v| {
        assert w.ds[k] == es[k];
      } else {
        assert w.ds[k] == ms[k - |v|];
        DigitsClosable(k - |v|);
      }
    }
    FramesRoundTrip([w], pal);
    assert ExpectedFrames([w]) == [ExpectedFrame(w.min, w.max, w.ds)];
  }
}
