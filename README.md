# Chronos Auction: the simulation core in Dafny

The Chronos Auction page simulates a Dutch-auction NFT mint entirely in the
browser. This project models the parts of it that compute something:

- **the `App` component** (`src/App.tsx`), which owns the auction state:
  - a slot counter, advanced every 400 ms by a random 1, 2 or 3 until it
    reaches the target slot;
  - a price/phase tick, every 100 ms, that derives the time remaining, the
    phase (`active`, `building`, `executed`) and a linearly decaying price,
    clamped from below, from the elapsed wall-clock time;
  - a wallet-connect command, which installs a random mock identifier;
  - a bid command, which is ignored without a wallet and otherwise appends
    a bid and re-sorts the ledger by timestamp;
- **the price chart** (`src/components/PriceChart.tsx`), which samples the
  linear price once a second, gives each sample an `m:ss` label, and keeps
  the last 60 samples;
- **the countdown** (`src/components/HeroSection.tsx`), which shows the
  slots left and the time remaining as two-digit minutes and seconds.

Files and modules:

| file | module | models |
|---|---|---|
| `numbers.dfy` | `Numbers` | the JavaScript number operations used: truncating `%`, `Math.floor` of a quotient, `toString()`, `padStart(2, '0')`, `parseFloat(x.toFixed(2))` |
| `auction.dfy` | `Auction` | `App`'s constants, the slot step, time remaining, phase and price, and runs of ticks |
| `ledger.dfy` | `Ledger` | the `Bid` record and the stable re-sort on every insertion |
| `app.dfy` | `App` | class `AuctionApp`: `App`'s state variables as fields, one method per tick or handler |
| `price_chart.dfy` | `PriceChart` | class `ChartSampler`: the sampler's tick over its bounded history |
| `hero_section.dfy` | `HeroSection` | the countdown derivations |

Modelling choices:

- `Date.now()` and `Math.random()` are method parameters:
  - `now` for the clock;
  - the slot increment `k` (required to be 1, 2 or 3);
  - the two base-36 fragments of the mock wallet identifier;
  - the bid id.
- `AUCTION_START_TIME` is `loadTime - 120000`, with `loadTime` given to the constructor.
- Prices are exact `real`s. `parseFloat(x.toFixed(2))` is the nearest
  hundredth, ties away from zero.
- Times are integer milliseconds. `Math.floor(a / b)` with a positive `b`
  is Dafny's `/`. JavaScript's `%` is written out as a truncating
  remainder, because the two differ for negative operands.
- `Array.prototype.sort` is stable (ECMAScript 2019 and later), so the
  ledger's sort is a stable insertion sort by timestamp (`Ledger.SortByTimestamp`).
  `Ledger.SortUnique` shows it is the only sorted order that keeps each
  timestamp's bids in input order. So the model pins down the result of any
  stable sort, not one particular algorithm.
- The React state updates of one tick or handler take effect together, as
  one method call.

Facts about the code that the model keeps as written:

- The slot tick checks `prev < TARGET_SLOT` and then adds up to 3. The slot
  can therefore end up to 2 past the target (`Auction.SlotOvershoot`), and
  the slots-left display can read -2 (`HeroSection.SlotsRemainingNegative`).
  It is not bounded by the target.
- The price is clamped only from below. The progress `elapsed / D` is not
  clamped to [0, 1]. Before the start instant the price would exceed the
  start price (`Auction.ActivePriceNoUpperClamp`). With the App's start time
  two minutes before load, this does not happen while the page's clock runs
  forward.
- The phase is written only by the tick, from the current elapsed time. It
  is monotone, with `executed` terminal, only for a non-decreasing clock
  (`Auction.TickRunForward`). A clock that steps back can turn `executed`
  into `building` again (`Auction.NextPhaseBackwards`).
- `handleSubmitBid` does not check the phase itself. The page calls it only
  while the phase is `active`. `BidInterface.tsx` shows the submit button
  only outside `building` (lines 104-116), and `App` stops rendering that
  component once the phase is `executed` (`App.tsx` lines 90-97). The model
  has the handler's own behaviour: with a wallet connected, it accepts a bid
  in any phase.
- `handleConnectWallet` does not check whether a wallet is already connected.
  The page shows the connect button only while none is (`BidInterface.tsx`
  lines 37-47). The model has the handler's own behaviour: called again, it
  replaces the identifier.

## Model

| member | source | states |
|---|---|---|
| Numbers.TruncRem | src/components/HeroSection.tsx:13 | JavaScript `%` by a positive divisor: in [0, b) and equal to the Euclidean remainder for a non-negative dividend, in (-b, 0] for a negative one |
| Numbers.TruncRemOdd | src/components/PriceChart.tsx:32 | the remainder is odd in the dividend: `(-a) % b == -(a % b)` |
| Numbers.FloorDiv | src/components/HeroSection.tsx:12 | `Math.floor(a / b)` is the q with `q*b <= a < q*b + b` |
| Numbers.NatToString | src/components/PriceChart.tsx:32 | `toString()` of a non-negative integer is a non-empty digit string, one digit exactly below 10, with no leading zero |
| Numbers.ParseNatToString | src/components/PriceChart.tsx:32 | the decimal spelling reads back as the number |
| Numbers.IntToString | src/components/HeroSection.tsx:57 | `toString()` of an integer: digits reading back as n for n >= 0, a minus sign then digits reading back as -n otherwise; no leading zero for n >= 1 |
| Numbers.PadStart | src/components/HeroSection.tsx:61 | `padStart(n, c)` has length max(|s|, n), ends with s, and is c before it |
| Numbers.Pad2 | src/components/HeroSection.tsx:57-61 | `v.toString().padStart(2, '0')`: at least two characters; a single digit gets a leading '0'; a negative value or one of two or more digits stays as spelled; exactly two characters for 0..99 |
| Numbers.TwoDigits | src/components/HeroSection.tsx:57-61 | `v.toString().padStart(2, '0')` of a value in 0..99 is two digits reading back as v |
| Numbers.Pad2Wide | src/components/HeroSection.tsx:57 | a value of 100 or more is shown unpadded, with three or more characters |
| Numbers.Cents | src/App.tsx:82 | `x.toFixed(2)` as a whole number of hundredths: the one within half a hundredth of `x*100`, a tie going away from zero (half-open on the side of zero) |
| Numbers.ToFixed2 | src/components/PriceChart.tsx:35 | `parseFloat(x.toFixed(2))` is a whole number of hundredths within 0.005 of `x` |
| Numbers.ToFixed2Idempotent | src/components/PriceChart.tsx:35 | rounding an already rounded price changes nothing |
| Auction.NextSlot | src/App.tsx:36-41 | below the target the slot grows by exactly k; at or above it the slot is unchanged; it never decreases; starting at most TARGET_SLOT+2 it stays at most TARGET_SLOT+2 |
| Auction.SlotRun | src/App.tsx:36-41 | over any run of slot ticks: non-decreasing, at most TARGET_SLOT+2, frozen once at or above the target |
| Auction.SlotOvershoot | src/App.tsx:37-38 | from TARGET_SLOT-1 an increment of 3 ends at TARGET_SLOT+2, and stays there |
| Auction.TimeRemaining | src/App.tsx:51-54 | `max(0, D - elapsed)`: never negative, 0 from D on, `D - elapsed` up to D, and at most D exactly when elapsed >= 0 |
| Auction.NextPhase | src/App.tsx:56-60 | `executed` iff elapsed >= D+B (or the phase was `executed` and elapsed < D); `building` iff D <= elapsed < D+B (or it was `building` and elapsed < D); unchanged below D |
| Auction.PhaseAtMonotone | src/App.tsx:56-60 | the intended phase never moves back as time advances, and `executed` is never left |
| Auction.NextPhaseTracks | src/App.tsx:56-60 | a tick at a later instant moves the phase of an earlier instant to the phase of the later one |
| Auction.NextPhaseBackwards | src/App.tsx:56-59 | with a clock stepping back, a tick turns `executed` into `building` |
| Auction.LinearPrice | src/App.tsx:61-62 | the unclamped price: between END_PRICE and START_PRICE for 0 <= elapsed <= D, above START_PRICE before the start, below END_PRICE after D |
| Auction.ActivePrice | src/App.tsx:61-63 | the active price is `max(END_PRICE, linear price)`: at least END_PRICE, at least the linear price, and one of the two |
| Auction.ActivePriceAntitone | src/App.tsx:61-63 | the active price never rises as elapsed grows |
| Auction.ActivePriceInWindow | src/App.tsx:61-63 | for 0 <= elapsed < D the clamp never engages and END_PRICE < price <= START_PRICE |
| Auction.ActivePriceAnchors | src/App.tsx:61-63 | price is 10 at elapsed 0, 6 at elapsed 150000, and 2 at D |
| Auction.ActivePriceNoUpperClamp | src/App.tsx:61-63 | for negative elapsed the price exceeds START_PRICE: no upper clamp |
| Auction.Tick | src/App.tsx:50-64 | one price/phase tick: the time remaining is `TimeRemaining(elapsed)`, never negative; before D the price is `ActivePrice(elapsed)`; the END_PRICE floor is kept; from D on the price is untouched and the phase is the one for that instant; before D the phase is untouched, and inside the window the price is in (END_PRICE, START_PRICE] |
| Auction.TickRunPhase | src/App.tsx:50-64 | a run of price ticks with a non-decreasing clock ends in the phase of its last tick |
| Auction.TickRunForward | src/App.tsx:56-60 | from `active`, with a non-decreasing clock, the phase after any prefix of the run is no later than at its end |
| Auction.TickRunFrozenPrice | src/App.tsx:56-64 | ticks at or after D never change the price: it stays frozen at its last active value |
| Auction.TickRunPriceFloor | src/App.tsx:63 | the price stays at or above END_PRICE through any run of ticks |
| Auction.TickRunTimeRemaining | src/App.tsx:52-54 | after a run of ticks the time remaining is that of the last tick, never negative |
| Ledger.Insert | src/App.tsx:87 | the bid goes before the first bid with a later timestamp; the result is one entry longer (sortedness and permutation: `Ledger.InsertFacts`, stability: `Ledger.InsertStable`) |
| Ledger.InsertFacts | src/App.tsx:87 | inserting into a sorted ledger gives a sorted ledger, a permutation of the old one plus the bid, one entry longer |
| Ledger.InsertStable | src/App.tsx:87 | inserting into a sorted ledger adds the bid at the end of its timestamp group and leaves every other group alone |
| Ledger.SortByTimestamp | src/App.tsx:87 | `.sort((a, b) => a.timestamp - b.timestamp)` as a stable insertion sort; it keeps the length (sortedness, permutation, stability and uniqueness: the lemmas below) |
| Ledger.SortSortedPermutation | src/App.tsx:87 | the sort yields a sorted permutation of its input |
| Ledger.SortStable | src/App.tsx:87 | the sort keeps the input order of bids with equal timestamps |
| Ledger.SortedGroupsDetermine | src/App.tsx:87 | two sorted ledgers with the same bids in the same order within every timestamp are equal |
| Ledger.SortUnique | src/App.tsx:87 | any sorted ledger that keeps each timestamp group's input order is the sort's result |
| Ledger.SortOfSorted | src/App.tsx:87 | re-sorting a sorted ledger changes nothing |
| Ledger.Submit | src/App.tsx:87 | `[...prev, newBid]` then the sort; one entry longer (its properties: `Ledger.SubmitFacts`, `Ledger.SubmitSorted`) |
| Ledger.SubmitSorted | src/App.tsx:87 | on a sorted ledger, append-then-sort is inserting the bid after all bids with an equal or earlier timestamp |
| Ledger.SubmitFacts | src/App.tsx:87 | one insertion: length +1, sorted, a permutation of old plus the new bid, the new bid last among its timestamp |
| Ledger.SubmitAllFacts | src/App.tsx:87 | after N insertions: N more entries, sorted, none lost or invented |
| Ledger.OutOfOrderScenario | src/App.tsx:87 | bids submitted at t2, t1, t3 with t1 < t2 < t3 end up ordered t1, t2, t3 |
| App.MockAddress | src/App.tsx:71 | the identifier is `left`, then "...", then `right`, of length `|left| + 3 + |right|` |
| App.AddressRoundTrip | src/App.tsx:71 | the mock identifier `left...right` has at most 11 characters, and the two base-36 fragments can be read back from it |
| App.NewBid | src/App.tsx:79-85 | the `Bid` record (`App.tsx` lines 9-15, `Ledger.Bid`) that the handler builds: it carries the id, wallet, submission time and slot, and the price `ToFixed2(price)`, the nearest hundredth with ties away from zero (within 0.005, already rounded), not below END_PRICE when the current price is not |
| App.AuctionApp.constructor | src/App.tsx:25-31 | the initial state: slot 599,999,800, price START_PRICE, empty ledger, no wallet, phase `active`, time remaining 0; start time two minutes before load |
| App.AuctionApp.SlotTick | src/App.tsx:36-41 | the slot becomes `NextSlot(old slot, k)`; nothing else changes; the invariant (slot at most TARGET_SLOT+2, price at least END_PRICE, sorted ledger) is kept |
| App.AuctionApp.PriceTick | src/App.tsx:50-64 | phase, price and time remaining become one `Tick` of the old ones at `now - AUCTION_START_TIME`: the price frozen from D on and the active price before D; wallet, slot and ledger unchanged |
| App.AuctionApp.ConnectWallet | src/App.tsx:70-74 | afterwards a wallet is connected and the identifier is the new mock identifier, whether or not one was connected before; the identifier has at most 11 characters and splits back into the two fragments |
| App.AuctionApp.SubmitBid | src/App.tsx:76-88 | without a wallet the ledger is unchanged; with one it is the stable sort of old ledger plus the new bid, one entry longer, a permutation of old plus the bid, still sorted |
| PriceChart.SamplePrice | src/components/PriceChart.tsx:30-31 | the chart's linear price with no clamp; a plain computation whose properties are `PriceChart.SamplePriceLinear` and `PriceChart.SampleMatchesAuction` |
| PriceChart.SamplePriceLinear | src/components/PriceChart.tsx:30-31 | the sample is the start price at 0 and the end price at the duration, and for a falling auction it never rises as time passes |
| PriceChart.SampleMatchesAuction | src/components/PriceChart.tsx:30-31 | with the App's constants, inside the window, the chart's unclamped sample equals the App's active price |
| PriceChart.TimeLabel | src/components/PriceChart.tsx:26-32 | the `m:ss` label of the elapsed time; from the start instant on it has at least four characters with ':' third from the end |
| PriceChart.TimeLabelReadsBack | src/components/PriceChart.tsx:26-32 | for elapsed >= 0 the label is minutes without a leading zero, ':' and exactly two digits below 60, and reads back as `floor(elapsed/1000)` seconds |
| PriceChart.TimeLabelBeforeStart | src/components/PriceChart.tsx:26-32 | one second before the start instant the label is "-1:-1" |
| PriceChart.KeepLast | src/components/PriceChart.tsx:36 | `slice(-n)` for n > 0: the last min(|s|, n) elements of `s`, as a suffix of `s` |
| PriceChart.AppendKeepLast | src/components/PriceChart.tsx:34-37 | after an appending tick the history has min(old+1, 60) points: the new one last, before it the newest old points in their order |
| PriceChart.AppendKeepsChronological | src/components/PriceChart.tsx:34-37 | a sample no earlier than every stored point keeps the history in time order |
| PriceChart.ChartSampler.constructor | src/components/PriceChart.tsx:19-20 | a mounted chart has its props and an empty history |
| PriceChart.ChartSampler.SampleAt | src/components/PriceChart.tsx:30-35 | the point sampled at `now`: stamped `now`, labelled with the elapsed time, its price `ToFixed2` of the linear sample: a whole number of hundredths within 0.005 of it, ties away from zero |
| PriceChart.ChartSampler.Tick | src/components/PriceChart.tsx:23-38 | at or after the duration the history is unchanged; otherwise it is the last 60 of old plus the new sample, of length min(old+1, 60), ending in the sample |
| HeroSection.SlotsRemaining | src/components/HeroSection.tsx:11 | `targetSlot - currentSlot`: positive exactly before the target, zero exactly at it, negative exactly past it |
| HeroSection.Minutes | src/components/HeroSection.tsx:12 | `Math.floor(t / 60000)`: the m with `m*60000 <= t < m*60000 + 60000` |
| HeroSection.Seconds | src/components/HeroSection.tsx:13 | `Math.floor((t % 60000) / 1000)`: for t >= 0, in 0..59 and the whole seconds of `t % 60000`; for t < 0, in -60..0 (JavaScript's `%` keeps the sign) |
| HeroSection.MinutesLabel | src/components/HeroSection.tsx:57 | the padded minutes: at least two characters, exactly two for 0..99 minutes |
| HeroSection.SecondsLabel | src/components/HeroSection.tsx:61 | the padded seconds: at least two characters, exactly two for a non-negative time remaining |
| HeroSection.SlotsRemainingBounds | src/components/HeroSection.tsx:11 | slots left start at 201, never rise over a slot tick, are at least -2, and are 0 exactly at the target |
| HeroSection.SlotsRemainingNegative | src/components/HeroSection.tsx:11 | slots left can reach -2 |
| HeroSection.CountdownSplit | src/components/HeroSection.tsx:12-13 | for a non-negative time remaining, seconds lie in 0..59, and minutes*60000 + seconds*1000 <= t < that + 1000 |
| HeroSection.MinutesRange | src/components/HeroSection.tsx:12 | within one auction duration the minutes lie in 0..5 |
| HeroSection.AppCountdown | src/components/HeroSection.tsx:12-61 | for the App's time remaining at any elapsed time, seconds lie in 0..59; once elapsed >= 0, minutes lie in 0..5 and both labels are two digits reading back as the minutes and the seconds |
| HeroSection.CountdownLabels | src/components/HeroSection.tsx:57-61 | up to 99:59 both labels are two digits reading back as the minutes and the seconds |
| HeroSection.CountdownNegative | src/components/HeroSection.tsx:12-13 | a negative time remaining, which the App never produces, would show negative minutes and seconds |

## Left out

- Timers: the 400 ms, 100 ms and 1000 ms `setInterval` schedules and their
  `clearInterval` teardown. Each tick body is one method call at a given `now`.
  No interleaving of the two App ticks is modelled, and none is needed: they
  write disjoint fields.
- React closure staleness: `handleSubmitBid` reads the state of the last
  render. The model reads the current fields. This assumes a re-render
  between a state change and the next command.
- Randomness and the clock (`Math.random`, `Date.now`) become parameters.
  Uniqueness of bid ids and wallet identifiers is not guaranteed by the code
  and is not proved.
- IEEE-754 double arithmetic: prices are exact reals. `toFixed(2)` is exact
  half-up rounding of the magnitude. The binary-representation effects of
  real `toFixed` are not modelled.
- Locale and date formatting: `toLocaleString`, `toLocaleTimeString`,
  `toISOString`, and the `toFixed(2)` display strings.
- The random fragments are taken as given base-36 strings of at most four
  characters. How `Math.random().toString(36).substring(2, 6)` produces them
  is not modelled, and neither is `substring(7)` for bid ids.
- Caller gating: the page offers the connect button only while no wallet is
  connected, offers the submit button only while the phase is `active`, and
  disables a panel's submit button for 2 seconds after each submission
  (`bidSubmitted`, reset by a timer), so a panel can submit again once that
  pause is over. These checks live
  in `BidInterface.tsx`, which is not part of this model. The handlers are
  modelled as the code writes them: they can also be called in the states
  the page never calls them in.
- PriceChart.ChartSampler.constructor: requires a positive `auctionDuration`.
  The App always passes 300000. A zero duration would make JavaScript divide
  by zero.
- Presentation: the JSX rendering, the chart widget, `window.location.reload`
  and `window.open`. `src/components/Header.tsx`, `Leaderboard.tsx`,
  `FinalScreen.tsx` and `BidInterface.tsx` are not part of this model. Their
  only computations are a display-only sum, a display-only float offset and
  styling.
- Marketing claims shown on the page ("Ackermann retry", "microsecond
  timestamp", "100% success") have no code behind them and are not modelled.
