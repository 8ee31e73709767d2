/** The weekly challenge card: one of five challenges, chosen by the
    number of whole weeks since the epoch, and an "accept" button that
    stays pressed. The clock is an input. */
module WeeklyChallenge {
  import opened Common

  /** The number of challenges in the rotation. */
  const ChallengeCount: int := 5

  /** JavaScript's `%` on integers: the remainder takes the sign of the
      dividend (truncating division), unlike Dafny's `%`. */
  function JsRem(a: int, b: int): (r: int)
    requires b > 0
    ensures a >= 0 ==> r == a % b
    ensures a < 0 ==> -b < r <= 0
  {
    if a >= 0 then a % b else -((-a) % b)
  }

  /** `Math.floor(now / week) % challenges.length`. Dafny's `/` by a
      positive divisor already rounds down, as Math.floor does. */
  function WeekIndex(now: int): (i: int)
    ensures now >= 0 ==> 0 <= i < ChallengeCount
    ensures now < 0 ==> -ChallengeCount < i <= 0
  {
    JsRem(now / Week, ChallengeCount)
  }

  /** The challenge shown: `challenges[weekNumber]`, undefined (None) for
      an index outside the list, which only a clock before the epoch can
      produce. */
  function ChallengeAt(now: int): (r: Option<int>)
    ensures r.Some? ==> 0 <= r.value < ChallengeCount && r.value == WeekIndex(now)
    ensures now >= 0 ==> r.Some?
  {
    var i := WeekIndex(now);
    if 0 <= i < ChallengeCount then Some(i) else None
  }

  /** Before the epoch the index can be negative and no challenge shows. */
  lemma BeforeEpochShowsNothing()
    ensures WeekIndex(-1) == -1
    ensures ChallengeAt(-1).None?
  {
  }

  /** All moments of one week show the same challenge. */
  lemma SameWeekSameChallenge(a: int, b: int)
    requires a / Week == b / Week
    ensures WeekIndex(a) == WeekIndex(b)
  {
  }

  /** Exactly a week later the next challenge shows, wrapping from the
      last to the first. */
  lemma {:induction false} NextWeekNextChallenge(now: int)
    requires now >= 0
    ensures WeekIndex(now + Week) == (WeekIndex(now) + 1) % ChallengeCount
  {
    var w := now / Week;
    assert now == w * Week + now % Week;
    assert now + Week == (w + 1) * Week + now % Week;
    assert (now + Week) / Week == w + 1;
  }

  class ChallengeCard {
    var accepted: bool

    constructor()
      ensures !accepted
    {
      accepted := false;
    }

    /** handleAccept: the challenge is accepted, and nothing resets it. */
    method Accept()
      modifies this
      ensures accepted && ButtonDisabled()
    {
      accepted := true;
    }

    /** The button is disabled once accepted. */
    predicate ButtonDisabled()
      reads this
    {
      accepted
    }
  }
}
