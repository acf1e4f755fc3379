/** The tree that the level-by-level loop builds, described from the top by halves. */
module MerkleShape {
  import opened Digits
  import opened Merkle

  /** The tree of depth `d` over the leaves: the left half is full, and an empty right half
      repeats the left one. */
  function ByHalves(blake: Blake, leaves: seq<Digest>, d: nat): Digest
    requires 0 < |leaves| <= Pow(2, d)
    decreases d
  {
    if d == 0 then leaves[0]
    else
      var half := Pow(2, d - 1);
      if |leaves| <= half then
        var left := ByHalves(blake, leaves, d - 1);
        blake(left + left)
      else
        blake(ByHalves(blake, leaves[..half], d - 1) + ByHalves(blake, leaves[half..], d - 1))
  }

  /** The depth is the least for which that many leaves fit. */
  lemma {:induction false} DepthExactly(n: nat, d: nat)
    requires n > 0
    ensures d == Depth(n) <==> n <= Pow(2, d) && (d > 0 ==> Pow(2, d - 1) < n)
    decreases d
  {
    if d > 0 && n > 1 {
      DepthExactly((n + 1) / 2, d - 1);
      if d > 1 {
        assert Pow(2, d - 1) == 2 * Pow(2, d - 2);
      }
    }
  }

  // The level above the first `2 h` nodes of a level.
  lemma UpOfFirst(blake: Blake, level: seq<Digest>, h: nat)
    requires 2 * h < |level|
    ensures h < |Up(blake, level)| && Up(blake, level)[..h] == Up(blake, level[..2 * h])
  {
    var up, low := Up(blake, level), level[..2 * h];
    assert |Up(blake, low)| == h;
    forall q | 0 <= q < h ensures up[q] == Up(blake, low)[q] {
      assert low[2 * q] == level[2 * q] && Right(low, 2 * q) == Right(level, 2 * q);
    }
  }

  // The level above the others.
  lemma UpOfRest(blake: Blake, level: seq<Digest>, h: nat)
    requires 2 * h < |level|
    ensures h < |Up(blake, level)| && Up(blake, level)[h..] == Up(blake, level[2 * h..])
  {
    var up, high := Up(blake, level), level[2 * h..];
    assert |Up(blake, high)| == |up| - h;
    forall q | 0 <= q < |up| - h ensures up[h + q] == Up(blake, high)[q] {
      assert high[2 * q] == level[2 * (h + q)] && Right(high, 2 * q) == Right(level, 2 * (h + q));
    }
  }

  lemma Doubles(d: nat)
    ensures Pow(2, d + 1) == 2 * Pow(2, d)
  {
  }

  lemma OneHalf(blake: Blake, level: seq<Digest>, d: nat)
    requires 0 < |level| <= Pow(2, d)
    ensures |level| <= Pow(2, d + 1)
    ensures var left := ByHalves(blake, level, d); ByHalves(blake, level, d + 1) == blake(left + left)
  {
    Doubles(d);
  }

  lemma TwoHalves(blake: Blake, level: seq<Digest>, d: nat)
    requires Pow(2, d) < |level| <= Pow(2, d + 1)
    ensures |level| - Pow(2, d) <= Pow(2, d)
    ensures ByHalves(blake, level, d + 1) ==
      blake(ByHalves(blake, level[..Pow(2, d)], d) + ByHalves(blake, level[Pow(2, d)..], d))
  {
    Doubles(d);
  }

  lemma {:induction false} UpByHalves(blake: Blake, level: seq<Digest>, d: nat)
    requires 0 < |level| <= Pow(2, d + 1)
    ensures |Up(blake, level)| <= Pow(2, d)
    ensures ByHalves(blake, Up(blake, level), d) == ByHalves(blake, level, d + 1)
    decreases d
  {
    hide Up, ByHalves, Pow;
    Doubles(d);
    var up := Up(blake, level);
    if d == 0 {
      UpOfFew(blake, level);
    } else {
      Doubles(d - 1);
      var half := Pow(2, d - 1);
      if |level| <= 2 * half {
        UpByHalves(blake, level, d - 1);
        OneHalf(blake, level, d);
        OneHalf(blake, up, d - 1);
      } else {
        UpOfFirst(blake, level, half);
        UpOfRest(blake, level, half);
        UpByHalves(blake, level[..2 * half], d - 1);
        UpByHalves(blake, level[2 * half..], d - 1);
        TwoHalves(blake, level, d);
        TwoHalves(blake, up, d - 1);
      }
    }
  }

  lemma UpOfFew(blake: Blake, level: seq<Digest>)
    requires 0 < |level| <= Pow(2, 1)
    ensures |Up(blake, level)| == 1 <= Pow(2, 0)
    ensures ByHalves(blake, level, 1) == ByHalves(blake, Up(blake, level), 0)
  {
    assert Pow(2, 0) == 1 && Pow(2, 1) == 2;
    hide Pow;
    var up := Up(blake, level);
    assert ByHalves(blake, up, 0) == up[0];
    if |level| == 1 {
      OneHalf(blake, level, 0);
      assert ByHalves(blake, level, 0) == level[0];
    } else {
      TwoHalves(blake, level, 0);
      assert ByHalves(blake, level[..1], 0) == level[0] && ByHalves(blake, level[1..], 0) == level[1];
    }
  }

  /** The loop's root is the root of the tree by halves, for every number of leaves. */
  lemma {:induction false} RootByHalves(blake: Blake, leaves: seq<Digest>, d: nat)
    requires leaves != [] && d == Depth(|leaves|)
    ensures |leaves| <= Pow(2, d) && Root(blake, leaves) == ByHalves(blake, leaves, d)
    decreases d
  {
    hide *;
    DepthExactly(|leaves|, d);
    if |leaves| == 1 {
      RootOfOne(blake, leaves);
    } else {
      RootAbove(blake, leaves);
      RootByHalves(blake, Up(blake, leaves), d - 1);
      UpByHalves(blake, leaves, d - 1);
      assert d - 1 + 1 == d;
    }
  }

  lemma RootAbove(blake: Blake, leaves: seq<Digest>)
    requires |leaves| > 1
    ensures Up(blake, leaves) != [] && Root(blake, leaves) == Root(blake, Up(blake, leaves))
    ensures Depth(|leaves|) == 1 + Depth(|Up(blake, leaves)|)
  {
    hide Up;
  }

  lemma RootOfOne(blake: Blake, leaves: seq<Digest>)
    requires |leaves| == 1
    ensures Depth(1) == 0 && 1 <= Pow(2, 0) && Root(blake, leaves) == ByHalves(blake, leaves, 0)
  {
  }
}
