/**
 * getContinuousCheckinDays' computation and its cache key, modelled as the code
 * is written.  After the newest record (which must be today's), the walk expects
 * each next record at (the date last matched) - (the streak so far), not one day
 * before the date last matched; so the j-th record it accepts lies Tri(j) =
 * 0 + 1 + ... + j days before today, and a run on today, today-1, today-2 gives 2.
 */
module Streak {
  import opened Wrappers
  import opened Text

  const StreakKeyPrefix: string := "checkin:continuous:"

  /** "checkin:continuous:" + userId; string concatenation renders a null Long as "null". */
  function StreakKey(userId: Option<int>): (k: string)
    ensures |k| > |StreakKeyPrefix| && k[..|StreakKeyPrefix|] == StreakKeyPrefix
  {
    StreakKeyPrefix + (if userId.Some? then IntToString(userId.value) else "null")
  }

  /** Different users (and the null id) never share a cache key. */
  lemma StreakKeyInjective(a: Option<int>, b: Option<int>)
    requires StreakKey(a) == StreakKey(b)
    ensures a == b
  {
    var n := |StreakKeyPrefix|;
    var ta := if a.Some? then IntToString(a.value) else "null";
    var tb := if b.Some? then IntToString(b.value) else "null";
    assert ta == StreakKey(a)[n..] == StreakKey(b)[n..] == tb;
    if a.Some? { LeadingMinusIffNegative(a.value); RenderingStartsWithDigitOrMinus(a.value); }
    if b.Some? { LeadingMinusIffNegative(b.value); RenderingStartsWithDigitOrMinus(b.value); }
    if a.Some? && b.Some? {
      IntToStringInjective(a.value, b.value);
    }
  }

  lemma RenderingStartsWithDigitOrMinus(i: int)
    ensures |IntToString(i)| >= 1 && (IntToString(i)[0] == '-' || IsDigit(IntToString(i)[0]))
  {
    if i >= 0 {
      assert IsDigit(NatToString(i)[0]);
    }
  }

  /**
   * The loop after the first record: `count` records matched so far, the last of them
   * dated `last`; the next must be dated last - count.
   */
  function Walk(rest: seq<int>, last: int, count: nat): (n: nat)
    ensures count <= n <= count + |rest|
  {
    if rest == [] then count
    else if rest[0] == last - count then Walk(rest[1..], rest[0], count + 1)
    else count
  }

  /** The streak for the record dates `days` (newest first) as seen on day `today`. */
  function StreakLength(days: seq<int>, today: int): (n: nat)
    ensures n <= |days|
    ensures days != [] ==> 1 <= n
  {
    if days == [] then 0
    else if days[0] != today then 1
    else Walk(days[1..], today, 1)
  }

  /** 0 with no records; otherwise at least 1 and at most one per record; 1 when the newest is not today's. */
  lemma StreakBounds(days: seq<int>, today: int)
    ensures days == [] ==> StreakLength(days, today) == 0
    ensures days != [] ==> 1 <= StreakLength(days, today) <= |days|
    ensures days != [] && days[0] != today ==> StreakLength(days, today) == 1
  {
  }

  /** The loop of getContinuousCheckinDays, with its early exits. */
  method ComputeStreak(days: seq<int>, today: int) returns (n: int)
    ensures n == StreakLength(days, today)
    ensures days == [] ==> n == 0
    ensures days != [] ==> 1 <= n <= |days|
  {
    if |days| == 0 {
      return 0;
    }
    n := 1;
    if days[0] != today {
      return n;
    }
    var last := today;
    var i := 1;
    while i < |days|
      invariant 1 <= i <= |days| && n == i
      invariant Walk(days[i..], last, n) == Walk(days[1..], today, 1)
    {
      var current := days[i];
      var expected := last - n;
      if current == expected {
        n := n + 1;
        last := current;
      } else {
        break;
      }
      i := i + 1;
    }
  }

  /** 0 + 1 + ... + j. */
  function Tri(j: nat): nat {
    if j == 0 then 0 else Tri(j - 1) + j
  }

  /** Records 0..k-1 lie Tri(0), ..., Tri(k - 1) days before today. */
  ghost predicate TriangularPrefix(days: seq<int>, today: int, k: nat)
    requires k <= |days|
  {
    forall j :: 0 <= j < k ==> days[j] == today - Tri(j)
  }

  lemma {:induction false} WalkMatches(days: seq<int>, today: int, k: nat)
    requires 1 <= k <= |days|
    requires TriangularPrefix(days, today, k)
    ensures var n := Walk(days[k..], today - Tri(k - 1), k);
      && n <= |days|
      && TriangularPrefix(days, today, n)
      && (n < |days| ==> days[n] != today - Tri(n))
    decreases |days| - k
  {
    var last := today - Tri(k - 1);
    if k < |days| {
      assert Tri(k) == Tri(k - 1) + k;
      if days[k] == today - Tri(k) {
        assert days[k..][1..] == days[k + 1..];
        WalkMatches(days, today, k + 1);
      }
    }
  }

  /**
   * What the walk as written accepts: a streak n means the records 0..n-1 lie exactly
   * Tri(0), ..., Tri(n - 1) days before today, and record n (if any) does not lie Tri(n) days before.
   */
  lemma StreakIsTriangular(days: seq<int>, today: int)
    requires days != [] && days[0] == today
    ensures var n := StreakLength(days, today);
      && (forall j :: 0 <= j < n ==> days[j] == today - Tri(j))
      && (n < |days| ==> days[n] != today - Tri(n))
  {
    WalkMatches(days, today, 1);
  }

  /** Conversely, that triangular pattern and its first break determine the streak. */
  lemma TriangularIsStreak(days: seq<int>, today: int, n: nat)
    requires 1 <= n <= |days|
    requires forall j :: 0 <= j < n ==> days[j] == today - Tri(j)
    requires n < |days| ==> days[n] != today - Tri(n)
    ensures StreakLength(days, today) == n
  {
    StreakIsTriangular(days, today);
  }

  /** Records after the one that breaks the walk never affect the result. */
  lemma StreakIgnoresLaterRecords(days: seq<int>, other: seq<int>, today: int)
    requires StreakLength(days, today) < |days|
    requires StreakLength(days, today) < |other|
    requires other[..StreakLength(days, today) + 1] == days[..StreakLength(days, today) + 1]
    ensures StreakLength(other, today) == StreakLength(days, today)
  {
    var n := StreakLength(days, today);
    assert other[0] == days[0];
    if days[0] == today {
      StreakIsTriangular(days, today);
      forall j | 0 <= j <= n ensures other[j] == days[j] {
        assert other[..n + 1][j] == days[..n + 1][j];
      }
      TriangularIsStreak(other, today, n);
    }
  }

  /**
   * The discovered behaviour: any run of two or more consecutive days ending today
   * yields 2, since the third record would have to lie 3 days back, not 2.
   */
  lemma ConsecutiveRunYieldsTwo(days: seq<int>, today: int)
    requires |days| >= 2
    requires forall i :: 0 <= i < |days| ==> days[i] == today - i
    ensures StreakLength(days, today) == 2
  {
    assert Tri(1) == 1 && Tri(2) == 3;
    TriangularIsStreak(days, today, 2);
  }

  /** Records on today, today - 1 and today - 2 give 2, not 3. */
  lemma ThreeConsecutiveDaysGiveTwo(today: int)
    ensures StreakLength([today, today - 1, today - 2], today) == 2
  {
    ConsecutiveRunYieldsTwo([today, today - 1, today - 2], today);
  }
}
