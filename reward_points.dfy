/** The cumulative reward points the tour-guide service hands to the trip pricer: the
    sum of a user's reward points, computed as Java computes an `int` sum, each addition
    wrapping around modulo 2^32. */
module RewardPoints {
  import opened Types

  const TwoTo31: int := 0x8000_0000
  const TwoTo32: int := 0x1_0000_0000

  /** Java's narrowing of an integer to `int`: the one value in range that is congruent
      to `x` modulo 2^32. */
  function Wrap(x: int): (r: Int32)
    ensures (r as int - x) % TwoTo32 == 0
    ensures -TwoTo31 <= x < TwoTo31 ==> r as int == x
  {
    var m := (x + TwoTo31) % TwoTo32;
    assert x + TwoTo31 == TwoTo32 * ((x + TwoTo31) / TwoTo32) + m;
    assert m - TwoTo31 - x == -TwoTo32 * ((x + TwoTo31) / TwoTo32);
    (m - TwoTo31) as Int32
  }

  /** The exact total of the reward points, without any wrap-around. */
  function TotalPoints(rewards: seq<UserReward>): int
  {
    if rewards == [] then 0 else rewards[0].rewardPoints as int + TotalPoints(rewards[1..])
  }

  /** The stream reduction as it runs: starting from `acc`, add each reward's points
      from left to right in `int` arithmetic. */
  function SumFrom(acc: Int32, rewards: seq<UserReward>): Int32
    decreases |rewards|
  {
    if rewards == [] then acc
    else SumFrom(Wrap(acc as int + rewards[0].rewardPoints as int), rewards[1..])
  }

  /** The cumulative reward points of a reward list. They equal the exact total whenever
      that total fits in an `int`, and always agree with it modulo 2^32. */
  function CumulativeRewardPoints(rewards: seq<UserReward>): (r: Int32)
    ensures (r as int - TotalPoints(rewards)) % TwoTo32 == 0
    ensures -TwoTo31 <= TotalPoints(rewards) < TwoTo31 ==> r as int == TotalPoints(rewards)
  {
    SumFromIsWrappedTotal(0, rewards);
    SumFrom(0, rewards)
  }

  /** Wrapping an intermediate result does not change the wrapped final result. */
  lemma WrapAbsorbs(x: int, y: int)
    ensures Wrap(Wrap(x) as int + y) == Wrap(x + y)
  {
    var w := Wrap(x) as int;
    var q := (w - x) / TwoTo32;
    assert w - x == TwoTo32 * q;
    WrapCongruent(w + y, x + y, q);
  }

  /** Integers that differ by a multiple of 2^32 wrap to the same `int`. */
  lemma WrapCongruent(a: int, b: int, q: int)
    requires a - b == TwoTo32 * q
    ensures Wrap(a) == Wrap(b)
  {
    var ra, rb := Wrap(a) as int, Wrap(b) as int;
    assert (ra - a) % TwoTo32 == 0 && (rb - b) % TwoTo32 == 0;
    var qa, qb := (ra - a) / TwoTo32, (rb - b) / TwoTo32;
    assert ra - rb == TwoTo32 * (qa - qb + q);
    assert -TwoTo32 < ra - rb < TwoTo32;
  }

  /** Adding up with a wrap after every step gives the wrap of the exact total. */
  lemma {:induction false} SumFromIsWrappedTotal(acc: Int32, rewards: seq<UserReward>)
    ensures SumFrom(acc, rewards) == Wrap(acc as int + TotalPoints(rewards))
    decreases |rewards|
  {
    if rewards == [] {
      assert Wrap(acc as int) == acc;
    } else {
      var p := rewards[0].rewardPoints as int;
      SumFromIsWrappedTotal(Wrap(acc as int + p), rewards[1..]);
      WrapAbsorbs(acc as int + p, TotalPoints(rewards[1..]));
    }
  }

  /** The exact total of two reward lists one after the other is the sum of their
      totals: a reward added to the list adds its points. */
  lemma {:induction false} TotalPointsAppend(a: seq<UserReward>, b: seq<UserReward>)
    ensures TotalPoints(a + b) == TotalPoints(a) + TotalPoints(b)
  {
    if a == [] {
      assert a + b == b;
    } else {
      TotalPointsAppend(a[1..], b);
      assert (a + b)[1..] == a[1..] + b;
    }
  }

  /** The cumulative points of two reward lists one after the other are the `int` sum
      of their cumulative points: summing in pieces gives what the stream gives. */
  lemma CumulativeRewardPointsAppend(a: seq<UserReward>, b: seq<UserReward>)
    ensures CumulativeRewardPoints(a + b)
            == Wrap(CumulativeRewardPoints(a) as int + CumulativeRewardPoints(b) as int)
  {
    var ca, cb := CumulativeRewardPoints(a) as int, CumulativeRewardPoints(b) as int;
    var ta, tb := TotalPoints(a), TotalPoints(b);
    TotalPointsAppend(a, b);
    SumFromIsWrappedTotal(0, a + b);
    var qa, qb := (ca - ta) / TwoTo32, (cb - tb) / TwoTo32;
    assert ca - ta == TwoTo32 * qa && cb - tb == TwoTo32 * qb;
    WrapCongruent(ca + cb, ta + tb, qa + qb);
  }

  /** With no negative reward and a total that fits in an `int`, the cumulative points
      handed to the pricer are non-negative and at least each single reward's points. */
  lemma CumulativeRewardPointsBounds(rewards: seq<UserReward>, i: nat)
    requires forall j :: 0 <= j < |rewards| ==> rewards[j].rewardPoints >= 0
    requires TotalPoints(rewards) < TwoTo31
    requires i < |rewards|
    ensures CumulativeRewardPoints(rewards) >= rewards[i].rewardPoints >= 0
  {
    TotalPointsBounds(rewards, i);
  }

  /** With no negative reward, the exact total is non-negative and at least each
      single reward's points. */
  lemma {:induction false} TotalPointsBounds(rewards: seq<UserReward>, i: nat)
    requires forall j :: 0 <= j < |rewards| ==> rewards[j].rewardPoints >= 0
    requires i < |rewards|
    ensures TotalPoints(rewards) >= rewards[i].rewardPoints as int >= 0
  {
    if i > 0 {
      TotalPointsBounds(rewards[1..], i - 1);
    } else if |rewards| > 1 {
      TotalPointsBounds(rewards[1..], 0);
    }
  }
}
