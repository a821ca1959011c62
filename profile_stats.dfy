/** The statistics the profile header shows over a user's logged times
    (src/app/profile/_components/ProfileHeader.tsx): how many, the best,
    the mean, how many in the last day, how many on target, and on how
    many tracks. `now` stands for the clock. */
module ProfileStats {
  import opened Common

  /** One logged time, joined with its corner's target time and its track. */
  datatype TimeEntry = TimeEntry(creationTime: int, userTime: real, targetTime: real, trackId: Id)

  /** 24 hours in milliseconds. */
  const DayMs: int := 24 * 60 * 60 * 1000

  /** `totalTimes`. */
  function TotalTimes(es: seq<TimeEntry>): (n: nat)
    ensures n == 0 <==> es == []
  {
    |es|
  }

  /** `Math.min` over the times of a non-empty list. */
  function MinTime(es: seq<TimeEntry>): (r: real)
    requires |es| > 0
    ensures exists i :: 0 <= i < |es| && r == es[i].userTime
    ensures forall i :: 0 <= i < |es| ==> r <= es[i].userTime
  {
    if |es| == 1 then es[0].userTime
    else
      var rest := MinTime(es[1..]);
      assert forall i :: 1 <= i < |es| ==> es[i] == es[1..][i - 1];
      if es[0].userTime <= rest then es[0].userTime else rest
  }

  /** The largest time of a non-empty list, the upper bound of the mean. */
  function MaxTime(es: seq<TimeEntry>): (r: real)
    requires |es| > 0
    ensures exists i :: 0 <= i < |es| && r == es[i].userTime
    ensures forall i :: 0 <= i < |es| ==> es[i].userTime <= r
  {
    if |es| == 1 then es[0].userTime
    else
      var rest := MaxTime(es[1..]);
      assert forall i :: 1 <= i < |es| ==> es[i] == es[1..][i - 1];
      if es[0].userTime >= rest then es[0].userTime else rest
  }

  /** `bestTime`: 0 for no times, else the smallest time logged. */
  function BestTime(es: seq<TimeEntry>): (r: real)
    ensures es == [] ==> r == 0.0
    ensures es != [] ==> exists i :: 0 <= i < |es| && r == es[i].userTime
    ensures forall i :: 0 <= i < |es| ==> r <= es[i].userTime
  {
    if |es| > 0 then MinTime(es) else 0.0
  }

  /** The `reduce((sum, t) => sum + t.userTime, 0)` fold, left to right. */
  function Sum(es: seq<TimeEntry>): real {
    if es == [] then 0.0 else Sum(es[..|es| - 1]) + es[|es| - 1].userTime
  }

  /** Every time lies in [lo, hi], so the sum lies in [n * lo, n * hi]. */
  lemma {:induction false} SumBounds(es: seq<TimeEntry>, lo: real, hi: real)
    requires forall i :: 0 <= i < |es| ==> lo <= es[i].userTime <= hi
    ensures (|es| as real) * lo <= Sum(es) <= (|es| as real) * hi
  {
    if es != [] {
      var init := es[..|es| - 1];
      assert forall i :: 0 <= i < |init| ==> init[i] == es[i];
      SumBounds(init, lo, hi);
      assert (|es| as real) * lo == (|init| as real) * lo + lo;
      assert (|es| as real) * hi == (|init| as real) * hi + hi;
    }
  }

  /** Dividing bounds on a total by a positive count bounds the quotient. */
  lemma DivideBounds(total: real, n: real, lo: real, hi: real)
    requires n > 0.0 && n * lo <= total <= n * hi
    ensures lo <= total / n <= hi
  {
    assert total / n * n == total;
  }

  /** The mean of a non-empty list lies between its best and worst time. */
  lemma {:induction false} MeanBounds(es: seq<TimeEntry>)
    requires es != []
    ensures MinTime(es) <= Sum(es) / (|es| as real) <= MaxTime(es)
  {
    var lo, hi, n, total := MinTime(es), MaxTime(es), |es| as real, Sum(es);
    SumBounds(es, lo, hi);
    DivideBounds(total, n, lo, hi);
  }

  /** `avgTime`: 0 for no times, else the mean, which lies between the best
      and the worst time. */
  function AvgTime(es: seq<TimeEntry>): (r: real)
    ensures es == [] ==> r == 0.0
    ensures es != [] ==> MinTime(es) <= r <= MaxTime(es)
  {
    if |es| > 0 then
      MeanBounds(es);
      Sum(es) / (|es| as real)
    else 0.0
  }

  /** `Date.now() - t._creationTime < 24 * 60 * 60 * 1000`. */
  predicate IsRecent(e: TimeEntry, now: int) {
    now - e.creationTime < DayMs
  }

  /** `recentTimes`: how many times were logged in the 24 hours before `now`. */
  function RecentTimes(es: seq<TimeEntry>, now: int): (n: nat)
    ensures n <= |es|
    ensures n == |es| <==> forall i :: 0 <= i < |es| ==> IsRecent(es[i], now)
    ensures n == 0 <==> forall i :: 0 <= i < |es| ==> !IsRecent(es[i], now)
  {
    if es == [] then 0
    else
      assert forall i :: 1 <= i < |es| ==> es[i] == es[1..][i - 1];
      (if IsRecent(es[0], now) then 1 else 0) + RecentTimes(es[1..], now)
  }

  /** `t.userTime <= t.corner.targetTime`. */
  predicate HitsTarget(e: TimeEntry) {
    e.userTime <= e.targetTime
  }

  /** `targetsAchieved`: how many times are at or under their corner's target. */
  function TargetsAchieved(es: seq<TimeEntry>): (n: nat)
    ensures n <= |es|
    ensures n == |es| <==> forall i :: 0 <= i < |es| ==> HitsTarget(es[i])
    ensures n == 0 <==> forall i :: 0 <= i < |es| ==> !HitsTarget(es[i])
  {
    if es == [] then 0
    else
      assert forall i :: 1 <= i < |es| ==> es[i] == es[1..][i - 1];
      (if HitsTarget(es[0]) then 1 else 0) + TargetsAchieved(es[1..])
  }

  /** `new Set(userTimes.map(t => t.track._id))`. */
  function TrackIds(es: seq<TimeEntry>): (s: set<Id>)
    ensures forall i :: 0 <= i < |es| ==> es[i].trackId in s
    ensures forall t :: t in s ==> exists i :: 0 <= i < |es| && es[i].trackId == t
    ensures |s| <= |es|
  {
    if es == [] then {}
    else
      var rest := TrackIds(es[1..]);
      assert forall i :: 1 <= i < |es| ==> es[i] == es[1..][i - 1];
      assert forall t :: t in rest ==> exists i :: 1 <= i < |es| && es[i].trackId == t by {
        forall t | t in rest ensures exists i :: 1 <= i < |es| && es[i].trackId == t {
          var j :| 0 <= j < |es[1..]| && es[1..][j].trackId == t;
          assert es[j + 1].trackId == t;
        }
      }
      {es[0].trackId} + rest
  }

  /** `uniqueTracks`: how many distinct tracks the times were logged on. */
  function UniqueTracks(es: seq<TimeEntry>): (n: nat)
    ensures n <= |es|
    ensures es != [] ==> n >= 1
  {
    var s := TrackIds(es);
    assert es != [] ==> es[0].trackId in s;
    |s|
  }

  /** `value > 0 ? value.toFixed(3) : "N/A"`: None stands for "N/A". */
  function Shown(v: real): (r: Option<real>)
    ensures r.Some? <==> v > 0.0
    ensures r.Some? ==> r.value == v
  {
    if v > 0.0 then Some(v) else None
  }

  /** A recorded time of 0 (or below) makes the best time read "N/A", as
      does an empty list; so does the average when every time is 0. */
  lemma ZeroTimeShownAsNA(es: seq<TimeEntry>, i: nat)
    requires i < |es| && es[i].userTime <= 0.0
    ensures Shown(BestTime(es)) == None
    ensures (forall j :: 0 <= j < |es| ==> es[j].userTime == 0.0) ==> Shown(AvgTime(es)) == None
  {
    assert BestTime(es) <= es[i].userTime;
    if forall j :: 0 <= j < |es| ==> es[j].userTime == 0.0 {
      var k :| 0 <= k < |es| && MaxTime(es) == es[k].userTime;
      assert AvgTime(es) <= MaxTime(es);
    }
  }

  /** When every time is positive and there is at least one, both the best
      and the average are shown as numbers. */
  lemma PositiveTimesShown(es: seq<TimeEntry>)
    requires es != []
    requires forall i :: 0 <= i < |es| ==> es[i].userTime > 0.0
    ensures Shown(BestTime(es)) == Some(BestTime(es))
    ensures Shown(AvgTime(es)) == Some(AvgTime(es))
  {
    var k :| 0 <= k < |es| && BestTime(es) == es[k].userTime;
    assert MinTime(es) == BestTime(es);
  }
}
