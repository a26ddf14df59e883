/**
 * The auction's clock arithmetic from src/App.tsx: the constants, the slot
 * counter's step, and the Dutch-auction tick that derives the time remaining,
 * the phase and the price from the elapsed wall-clock time.
 */
module Auction {

  const TARGET_SLOT: int := 600_000_001
  const INITIAL_SLOT: int := 599_999_800
  /** AUCTION_START_TIME is the load instant minus this many milliseconds. */
  const START_OFFSET: int := 120000
  const AUCTION_DURATION: int := 300000
  const BATCH_BUILD_TIME: int := 30000
  const START_PRICE: real := 10.0
  const END_PRICE: real := 2.0

  // ---------------------------------------------------------------- slots

  /**
   * One slot tick: below the target the slot advances by the random
   * increment `k` (Math.floor(Math.random() * 3) + 1, so 1, 2 or 3);
   * at or above the target it stays put.
   */
  function NextSlot(prev: int, k: int): (r: int)
    requires 1 <= k <= 3
    ensures prev <= r
    ensures prev >= TARGET_SLOT <==> r == prev
    ensures prev < TARGET_SLOT ==> r - prev == k
    ensures prev <= TARGET_SLOT + 2 ==> r <= TARGET_SLOT + 2
  {
    if prev < TARGET_SLOT then prev + k else prev
  }

  predicate ValidIncrements(ks: seq<int>)
  {
    forall i | 0 <= i < |ks| :: 1 <= ks[i] <= 3
  }

  /** The slot after the ticks drawing the increments `ks`, in order. */
  function SlotAfter(slot: int, ks: seq<int>): int
    requires ValidIncrements(ks)
    decreases |ks|
  {
    if ks == [] then slot else SlotAfter(NextSlot(slot, ks[0]), ks[1..])
  }

  /**
   * Over any run of slot ticks the slot never decreases, never passes
   * TARGET_SLOT + 2 when it starts at most there, and does not move at all
   * once it is at or above the target.
   */
  lemma {:induction false} SlotRun(slot: int, ks: seq<int>)
    requires ValidIncrements(ks)
    ensures slot <= SlotAfter(slot, ks)
    ensures slot <= TARGET_SLOT + 2 ==> SlotAfter(slot, ks) <= TARGET_SLOT + 2
    ensures slot >= TARGET_SLOT ==> SlotAfter(slot, ks) == slot
    decreases |ks|
  {
    if ks != [] {
      SlotRun(NextSlot(slot, ks[0]), ks[1..]);
    }
  }

  /** The target can be overshot: from one below it, an increment of 3 ends two past it. */
  lemma SlotOvershoot()
    ensures NextSlot(TARGET_SLOT - 1, 3) == TARGET_SLOT + 2
    ensures SlotAfter(TARGET_SLOT - 1, [3, 1, 2]) == TARGET_SLOT + 2
  {
    assert [3, 1, 2][1..] == [1, 2] && [1, 2][1..] == [2] && [2][1..] == [];
    assert SlotAfter(TARGET_SLOT + 2, [1, 2]) == TARGET_SLOT + 2 by {
      SlotRun(TARGET_SLOT + 2, [1, 2]);
    }
  }

  // ---------------------------------------------------------------- time and phase

  datatype Phase = Active | Building | Executed

  /** Position of a phase along `active -> building -> executed`. */
  function Rank(p: Phase): nat
  {
    match p
    case Active => 0
    case Building => 1
    case Executed => 2
  }

  /** `Math.max(0, AUCTION_DURATION - elapsed)`. */
  function TimeRemaining(elapsed: int): (r: int)
    ensures r >= 0
    ensures elapsed >= AUCTION_DURATION ==> r == 0
    ensures elapsed <= AUCTION_DURATION ==> r + elapsed == AUCTION_DURATION
    ensures r <= AUCTION_DURATION <==> elapsed >= 0
  {
    if AUCTION_DURATION - elapsed > 0 then AUCTION_DURATION - elapsed else 0
  }

  /**
   * The phase a tick leaves behind: `executed` from D + B on, `building`
   * from D on, and otherwise whatever phase there was (the active branch
   * does not set the phase).
   */
  function NextPhase(p: Phase, elapsed: int): (r: Phase)
    ensures r == Executed <==> elapsed >= AUCTION_DURATION + BATCH_BUILD_TIME || (elapsed < AUCTION_DURATION && p == Executed)
    ensures r == Building <==> (AUCTION_DURATION <= elapsed < AUCTION_DURATION + BATCH_BUILD_TIME) || (elapsed < AUCTION_DURATION && p == Building)
    ensures elapsed < AUCTION_DURATION ==> r == p
  {
    if elapsed >= AUCTION_DURATION + BATCH_BUILD_TIME then Executed
    else if elapsed >= AUCTION_DURATION then Building
    else p
  }

  /** The phase the auction is in at `elapsed`, as the tick intends it. */
  function PhaseAt(elapsed: int): Phase
  {
    if elapsed >= AUCTION_DURATION + BATCH_BUILD_TIME then Executed
    else if elapsed >= AUCTION_DURATION then Building
    else Active
  }

  /** Later instants are never in an earlier phase, and `executed` is never left. */
  lemma PhaseAtMonotone(e0: int, e1: int)
    requires e0 <= e1
    ensures Rank(PhaseAt(e0)) <= Rank(PhaseAt(e1))
    ensures PhaseAt(e0) == Executed ==> PhaseAt(e1) == Executed
  {
  }

  /** A tick taken at a later instant than the one the phase reflects brings the phase up to date. */
  lemma NextPhaseTracks(e0: int, e1: int)
    requires e0 <= e1
    ensures NextPhase(PhaseAt(e0), e1) == PhaseAt(e1)
  {
  }

  /** With the clock running backwards a tick can leave `executed` for `building`. */
  lemma NextPhaseBackwards()
    ensures NextPhase(Executed, AUCTION_DURATION) == Building
  {
  }

  // ---------------------------------------------------------------- price

  /**
   * `START_PRICE - (START_PRICE - END_PRICE) * (elapsed / AUCTION_DURATION)`,
   * before clamping: within the two prices over the window, above the start
   * price before it and below the end price after it.
   */
  function LinearPrice(elapsed: int): (p: real)
    ensures 0 <= elapsed <= AUCTION_DURATION ==> END_PRICE <= p <= START_PRICE
    ensures elapsed < 0 ==> p > START_PRICE
    ensures elapsed > AUCTION_DURATION ==> p < END_PRICE
  {
    START_PRICE - (START_PRICE - END_PRICE) * (elapsed as real / AUCTION_DURATION as real)
  }

  /** The price an active tick sets: the linear price clamped from below by END_PRICE. */
  function ActivePrice(elapsed: int): (r: real)
    ensures r >= END_PRICE
    ensures r >= LinearPrice(elapsed)
    ensures r == LinearPrice(elapsed) || r == END_PRICE
  {
    var price := LinearPrice(elapsed);
    if END_PRICE >= price then END_PRICE else price
  }

  /** The price never rises as time passes. */
  lemma ActivePriceAntitone(e0: int, e1: int)
    requires e0 <= e1
    ensures ActivePrice(e1) <= ActivePrice(e0)
  {
  }

  /** Inside the auction window the clamp never engages and the price lies in (END_PRICE, START_PRICE]. */
  lemma ActivePriceInWindow(elapsed: int)
    requires 0 <= elapsed < AUCTION_DURATION
    ensures ActivePrice(elapsed) == LinearPrice(elapsed)
    ensures END_PRICE < ActivePrice(elapsed) <= START_PRICE
  {
  }

  /** The anchor values: START_PRICE at the start, 6 half-way through, END_PRICE at the end. */
  lemma ActivePriceAnchors()
    ensures ActivePrice(0) == START_PRICE
    ensures ActivePrice(150000) == 6.0
    ensures ActivePrice(AUCTION_DURATION) == END_PRICE
  {
  }

  /** Nothing clamps from above: before the start instant the price exceeds START_PRICE. */
  lemma ActivePriceNoUpperClamp(elapsed: int)
    requires elapsed < 0
    ensures ActivePrice(elapsed) > START_PRICE
  {
  }

  // ---------------------------------------------------------------- the price tick

  /** What the Dutch-auction tick reads and writes. */
  datatype Dutch = Dutch(phase: Phase, price: real, timeRemaining: int)

  /**
   * One tick at `elapsed`: the time remaining is always written; the phase
   * is written only past D; the price only before D.
   */
  function Tick(s: Dutch, elapsed: int): (r: Dutch)
    ensures r.timeRemaining == TimeRemaining(elapsed) && r.timeRemaining >= 0
    ensures s.price >= END_PRICE ==> r.price >= END_PRICE
    ensures elapsed < AUCTION_DURATION ==> r.price == ActivePrice(elapsed)
    ensures elapsed >= AUCTION_DURATION ==> r.price == s.price && r.phase == PhaseAt(elapsed)
    ensures elapsed < AUCTION_DURATION ==> r.phase == s.phase
    ensures 0 <= elapsed < AUCTION_DURATION ==> END_PRICE < r.price <= START_PRICE
  {
    var price := if elapsed >= AUCTION_DURATION then s.price else ActivePrice(elapsed);
    Dutch(NextPhase(s.phase, elapsed), price, TimeRemaining(elapsed))
  }

  /** The state after ticks at the elapsed times `es`, in order. */
  function TickRun(s: Dutch, es: seq<int>): Dutch
    decreases |es|
  {
    if es == [] then s else TickRun(Tick(s, es[0]), es[1..])
  }

  predicate NonDecreasing(es: seq<int>)
  {
    forall i, j | 0 <= i < j < |es| :: es[i] <= es[j]
  }

  /**
   * A run with a non-decreasing clock, started in the phase of an instant no
   * later than its first tick, ends in the phase of its last tick.
   */
  lemma {:induction false} TickRunPhase(s: Dutch, e0: int, es: seq<int>)
    requires NonDecreasing(es)
    requires s.phase == PhaseAt(e0)
    requires es != [] ==> e0 <= es[0]
    ensures TickRun(s, es).phase == PhaseAt(if es == [] then e0 else es[|es| - 1])
    decreases |es|
  {
    if es != [] {
      NextPhaseTracks(e0, es[0]);
      TickRunPhase(Tick(s, es[0]), es[0], es[1..]);
    }
  }

  /** From the initial `active` phase, with a non-decreasing clock, the phase never moves back. */
  lemma TickRunForward(s: Dutch, es: seq<int>, k: nat)
    requires NonDecreasing(es) && s.phase == Active
    requires k <= |es|
    ensures Rank(TickRun(s, es[..k]).phase) <= Rank(TickRun(s, es).phase)
  {
    var e0 := if es == [] then 0 else es[0];
    if es != [] && e0 >= AUCTION_DURATION {
      e0 := AUCTION_DURATION - 1;
    }
    assert s.phase == PhaseAt(e0);
    assert NonDecreasing(es[..k]);
    TickRunPhase(s, e0, es[..k]);
    TickRunPhase(s, e0, es);
    if k > 0 {
      PhaseAtMonotone(es[k - 1], es[|es| - 1]);
    }
  }

  /** Once every tick is at or after D the price is frozen at the value it had. */
  lemma {:induction false} TickRunFrozenPrice(s: Dutch, es: seq<int>)
    requires forall i | 0 <= i < |es| :: es[i] >= AUCTION_DURATION
    ensures TickRun(s, es).price == s.price
    decreases |es|
  {
    if es != [] {
      TickRunFrozenPrice(Tick(s, es[0]), es[1..]);
    }
  }

  /** The price stays at or above END_PRICE through any run. */
  lemma {:induction false} TickRunPriceFloor(s: Dutch, es: seq<int>)
    requires s.price >= END_PRICE
    ensures TickRun(s, es).price >= END_PRICE
    decreases |es|
  {
    if es != [] {
      TickRunPriceFloor(Tick(s, es[0]), es[1..]);
    }
  }

  /** After at least one tick the time remaining is that of the last tick, never negative. */
  lemma {:induction false} TickRunTimeRemaining(s: Dutch, es: seq<int>)
    requires es != []
    ensures TickRun(s, es).timeRemaining == TimeRemaining(es[|es| - 1])
    ensures TickRun(s, es).timeRemaining >= 0
    decreases |es|
  {
    if |es| > 1 {
      TickRunTimeRemaining(Tick(s, es[0]), es[1..]);
    }
  }
}
