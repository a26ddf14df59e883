/**
 * The countdown arithmetic of src/components/HeroSection.tsx: slots left
 * until the target, and the time remaining split into minutes and seconds,
 * each shown padded to two digits.
 */
module HeroSection {
  import opened Numbers
  import Auction

  /** `targetSlot - currentSlot`: positive before the target, zero at it, negative past it. */
  function SlotsRemaining(targetSlot: int, currentSlot: int): (r: int)
    ensures r > 0 <==> currentSlot < targetSlot
    ensures r == 0 <==> currentSlot == targetSlot
    ensures r < 0 <==> currentSlot > targetSlot
  {
    targetSlot - currentSlot
  }

  /** `Math.floor(timeRemaining / 60000)`: the whole minutes in the time remaining. */
  function Minutes(timeRemaining: int): (m: int)
    ensures m * 60000 <= timeRemaining < m * 60000 + 60000
  {
    FloorDiv(timeRemaining, 60000)
  }

  /**
   * `Math.floor((timeRemaining % 60000) / 1000)`, with JavaScript's truncating
   * `%`: the whole seconds in what is left over after the whole minutes.
   */
  function Seconds(timeRemaining: int): (sec: int)
    ensures timeRemaining >= 0 ==> 0 <= sec <= 59
    ensures timeRemaining >= 0 ==> sec * 1000 <= timeRemaining % 60000 < sec * 1000 + 1000
    ensures timeRemaining < 0 ==> -60 <= sec <= 0
  {
    FloorDiv(TruncRem(timeRemaining, 60000), 1000)
  }

  /** `minutes.toString().padStart(2, '0')`: at least two characters, exactly two up to 99 minutes. */
  function MinutesLabel(timeRemaining: int): (l: string)
    ensures |l| >= 2
    ensures 0 <= Minutes(timeRemaining) <= 99 ==> |l| == 2
  {
    Pad2(Minutes(timeRemaining))
  }

  /** `seconds.toString().padStart(2, '0')`: exactly two characters for a non-negative time remaining. */
  function SecondsLabel(timeRemaining: int): (l: string)
    ensures |l| >= 2
    ensures timeRemaining >= 0 ==> |l| == 2
  {
    Pad2(Seconds(timeRemaining))
  }

  /**
   * With the App's slot counter, slots left start at 201, never increase
   * over a slot tick, and never drop below -2; they are 0 exactly at the target.
   */
  lemma SlotsRemainingBounds(currentSlot: int, k: int)
    requires currentSlot <= Auction.TARGET_SLOT + 2 && 1 <= k <= 3
    ensures SlotsRemaining(Auction.TARGET_SLOT, Auction.INITIAL_SLOT) == 201
    ensures SlotsRemaining(Auction.TARGET_SLOT, currentSlot) >= -2
    ensures SlotsRemaining(Auction.TARGET_SLOT, Auction.NextSlot(currentSlot, k)) <= SlotsRemaining(Auction.TARGET_SLOT, currentSlot)
    ensures SlotsRemaining(Auction.TARGET_SLOT, currentSlot) == 0 <==> currentSlot == Auction.TARGET_SLOT
  {
  }

  /** The lower bound is reached: one slot before the target, an increment of 3 leaves -2 slots. */
  lemma SlotsRemainingNegative()
    ensures SlotsRemaining(Auction.TARGET_SLOT, Auction.NextSlot(Auction.TARGET_SLOT - 1, 3)) == -2
  {
  }

  /**
   * A non-negative time remaining splits into whole minutes and 0..59 whole
   * seconds, with less than a second left over.
   */
  lemma CountdownSplit(timeRemaining: int)
    requires timeRemaining >= 0
    ensures 0 <= Seconds(timeRemaining) <= 59
    ensures Minutes(timeRemaining) >= 0
    ensures Minutes(timeRemaining) * 60000 + Seconds(timeRemaining) * 1000 <= timeRemaining
    ensures timeRemaining < Minutes(timeRemaining) * 60000 + Seconds(timeRemaining) * 1000 + 1000
  {
    var m := FloorDiv(timeRemaining, 60000);
    var r := TruncRem(timeRemaining, 60000);
    assert r == timeRemaining % 60000;
    assert m * 60000 + r == timeRemaining;
  }

  /** Within one auction duration the minutes shown lie in 0..5. */
  lemma MinutesRange(timeRemaining: int)
    requires 0 <= timeRemaining <= Auction.AUCTION_DURATION
    ensures 0 <= Minutes(timeRemaining) <= 5
  {
  }

  /**
   * The App's time remaining gives seconds in 0..59 at any elapsed time. From
   * the start instant on, the whole minutes lie in 0..5 and both labels are two
   * digits reading back as the minutes and the seconds.
   */
  lemma AppCountdown(elapsed: int)
    ensures var tr := Auction.TimeRemaining(elapsed);
      && 0 <= Seconds(tr) <= 59
      && (elapsed >= 0 ==> 0 <= Minutes(tr) <= 5)
      && (elapsed >= 0 ==> |MinutesLabel(tr)| == 2 && IsDigits(MinutesLabel(tr)) && ParseNat(MinutesLabel(tr)) == Minutes(tr))
      && (elapsed >= 0 ==> |SecondsLabel(tr)| == 2 && IsDigits(SecondsLabel(tr)) && ParseNat(SecondsLabel(tr)) == Seconds(tr))
  {
    var tr := Auction.TimeRemaining(elapsed);
    CountdownSplit(tr);
    if elapsed >= 0 {
      MinutesRange(tr);
      CountdownLabels(tr);
    }
  }

  /** Up to 99:59 both labels are exactly two digits and read back as the minutes and seconds. */
  lemma CountdownLabels(timeRemaining: int)
    requires 0 <= timeRemaining < 100 * 60000
    ensures |MinutesLabel(timeRemaining)| == 2 && IsDigits(MinutesLabel(timeRemaining))
    ensures ParseNat(MinutesLabel(timeRemaining)) == Minutes(timeRemaining)
    ensures |SecondsLabel(timeRemaining)| == 2 && IsDigits(SecondsLabel(timeRemaining))
    ensures ParseNat(SecondsLabel(timeRemaining)) == Seconds(timeRemaining)
  {
    CountdownSplit(timeRemaining);
    TwoDigits(Minutes(timeRemaining));
    TwoDigits(Seconds(timeRemaining));
  }

  /** A negative time remaining (which the App never produces) shows negative minutes and seconds. */
  lemma CountdownNegative()
    ensures Minutes(-1500) == -1 && Seconds(-1500) == -2
  {
    assert TruncRem(-1500, 60000) == -1500;
  }
}
