/** The reward policy of flowers.py: the two flower pools, the rarity gate
  * that decides which pool a draw comes from, and the threshold-crossing test.
  * `random.choice` is an oracle index `pick` into the pool; `has_caterpillar`
  * is a boolean input of the handlers and does not appear here. */
module Flowers {

  /** BASE_FLOWERS: tulip, rose, cherry blossom, hibiscus, blossom. */
  const Base: seq<char> := ['\U{1F337}', '\U{1F339}', '\U{1F338}', '\U{1F33A}', '\U{1F33C}']

  /** ADVANCED_FLOWERS: hyacinth, lotus, sunflower. */
  const Advanced: seq<char> := ['\U{1FABB}', '\U{1FAB7}', '\U{1F33B}']

  /** BASE_FLOWERS + ADVANCED_FLOWERS, the pool once the gate is passed. */
  const All: seq<char> := Base + Advanced

  /** Owned-flower count from which the advanced flowers become eligible. */
  const RarityGate: int := 10

  /** Divisor of should_give_flower (and of main.py's level computation). */
  const Level: int := 500

  /** No flower occurs twice in a sequence of flowers. */
  predicate Distinct(fs: seq<char>)
  {
    forall i, j :: 0 <= i < j < |fs| ==> fs[i] != fs[j]
  }

  lemma PoolsShape()
    ensures |Base| == 5 && |Advanced| == 3 && |All| == 8
    ensures forall f :: f in Base ==> f !in Advanced
    ensures Distinct(All)
  {
  }

  /** The pool `random.choice` draws from, given how many flowers the user owns. */
  function Pool(flowerCount: int): (pool: seq<char>)
    ensures flowerCount < RarityGate ==> pool == Base
    ensures flowerCount >= RarityGate ==> pool == All
  {
    if flowerCount < RarityGate then Base else Base + Advanced
  }

  /** get_random_flower, with the random choice given as the oracle index `pick`. */
  function RandomFlower(flowerCount: int, pick: nat): (f: char)
    ensures f in All
    ensures flowerCount < RarityGate ==> f in Base
  {
    var pool := Pool(flowerCount);
    pool[pick % |pool|]
  }

  /** The oracle covers random.choice: every flower of the pool is drawn by some index. */
  lemma RandomFlowerCoversPool(flowerCount: int, f: char)
    requires f in Pool(flowerCount)
    ensures exists pick: nat :: RandomFlower(flowerCount, pick) == f
  {
    var pool := Pool(flowerCount);
    var i :| 0 <= i < |pool| && pool[i] == f;
    assert i % |pool| == i;
    assert RandomFlower(flowerCount, i) == f;
  }

  /** The flowers a grant loop draws, `n` times, when the user owned `start`
    * flowers before the loop: the k-th draw (0-based) sees `start + k` owned
    * flowers and uses the k-th oracle index. Nothing is drawn when n <= 0. */
  function Draws(start: int, n: int, picks: nat -> nat): (fs: seq<char>)
    ensures |fs| == if n > 0 then n else 0
    decreases if n > 0 then n else 0
  {
    if n <= 0 then [] else Draws(start, n - 1, picks) + [RandomFlower(start + n - 1, picks(n - 1))]
  }

  /** One more iteration of the grant loop appends one more draw. */
  lemma DrawsStep(start: int, n: nat, picks: nat -> nat)
    ensures Draws(start, n + 1, picks) == Draws(start, n, picks) + [RandomFlower(start + n, picks(n))]
  {
  }

  /** The k-th draw is get_random_flower of `start + k` with the k-th oracle index. */
  lemma {:induction false} DrawAt(start: int, n: int, picks: nat -> nat, k: nat)
    requires k < n
    ensures Draws(start, n, picks)[k] == RandomFlower(start + k, picks(k))
    decreases n
  {
    var prefix := Draws(start, n - 1, picks);
    assert Draws(start, n, picks) == prefix + [RandomFlower(start + n - 1, picks(n - 1))];
    if k < n - 1 {
      DrawAt(start, n - 1, picks, k);
    }
  }

  /** The same, for every draw at once. */
  lemma DrawsChosen(start: int, n: int, picks: nat -> nat)
    ensures forall k :: 0 <= k < |Draws(start, n, picks)| ==> Draws(start, n, picks)[k] == RandomFlower(start + k, picks(k))
  {
    forall k | 0 <= k < |Draws(start, n, picks)|
      ensures Draws(start, n, picks)[k] == RandomFlower(start + k, picks(k))
    {
      DrawAt(start, n, picks, k);
    }
  }

  /** Every draw is a flower, and a draw made while fewer than ten flowers
    * are owned is a base flower. */
  lemma DrawsRarity(start: int, n: int, picks: nat -> nat)
    ensures forall k :: 0 <= k < |Draws(start, n, picks)| ==>
      Draws(start, n, picks)[k] in All && (start + k < RarityGate ==> Draws(start, n, picks)[k] in Base)
  {
    DrawsChosen(start, n, picks);
  }

  /** should_give_flower: Python's `//` by a positive divisor is Dafny's `/`. */
  predicate ShouldGiveFlower(total: int, prev: int)
  {
    total / Level > prev / Level
  }

  /** The smallest multiple of 500 above `prev`. */
  function NextMark(prev: int): (m: int)
    ensures m % Level == 0 && prev < m <= prev + Level
  {
    (prev / Level + 1) * Level
  }

  /** A flower is due exactly when the total reaches the next multiple of 500
    * above the previous count. */
  lemma ShouldGiveIffMarkReached(total: int, prev: int)
    ensures ShouldGiveFlower(total, prev) <==> total >= NextMark(prev)
  {
    var m := NextMark(prev);
    if total >= m {
      assert total / Level >= m / Level by { DivMonotone(m, total, Level); }
      assert m / Level == prev / Level + 1;
    } else {
      assert total / Level <= prev / Level by {
        DivMonotone(total, m - 1, Level);
        assert (m - 1) / Level == prev / Level;
      }
    }
  }

  /** Floor division by a positive divisor is monotone. */
  lemma DivMonotone(a: int, b: int, d: int)
    requires a <= b && d > 0
    ensures a / d <= b / d
  {
    var qa, qb := a / d, b / d;
    assert d * qa <= a < d * qa + d;
    assert d * qb <= b < d * qb + d;
    assert qb + 1 <= qa ==> d * (qb + 1) <= d * qa;
  }

  /** No flower when the count did not grow. */
  lemma NoFlowerWithoutGrowth(total: int, prev: int)
    requires total <= prev
    ensures !ShouldGiveFlower(total, prev)
  {
    DivMonotone(total, prev, Level);
  }

  /** A gain of a full 500 always yields a flower. */
  lemma FlowerAfterFullLevel(total: int, prev: int)
    requires total >= prev + Level
    ensures ShouldGiveFlower(total, prev)
  {
    ShouldGiveIffMarkReached(total, prev);
  }
}
