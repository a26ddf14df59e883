/**
 * The state of the `App` component of src/App.tsx and the four things that
 * change it: the 400 ms slot tick, the 100 ms price/phase tick, the connect
 * command and the bid command. Each React state variable is a field; each
 * tick or handler is one method call, with the clock (`Date.now()`) and the
 * random draws (`Math.random()`) passed in.
 */
module App {
  import opened Numbers
  import opened Auction
  import opened Ledger

  datatype Option<T> = None | Some(value: T)

  // ---------------------------------------------------------------- wallet identity

  /** A base-36 digit as `Number.prototype.toString(36)` writes it. */
  predicate IsBase36(c: char)
  {
    '0' <= c <= '9' || 'a' <= c <= 'z'
  }

  /**
   * What `Math.random().toString(36).substring(2, 6)` can yield: up to four
   * base-36 digits (fewer when the random number has a short expansion).
   */
  predicate IsFragment(s: string)
  {
    |s| <= 4 && forall i | 0 <= i < |s| :: IsBase36(s[i])
  }

  /** The mock wallet identifier: two random fragments joined by "...". */
  function MockAddress(left: string, right: string): (a: string)
    ensures |a| == |left| + 3 + |right|
    ensures a[..|left|] == left && a[|left|..|left| + 3] == "..." && a[|left| + 3..] == right
  {
    left + "..." + right
  }

  /** The index of the first '.' in `a`, or `|a|` when there is none. */
  function DotIndex(a: string): (i: nat)
    ensures i <= |a|
    ensures i < |a| ==> a[i] == '.'
    ensures forall j | 0 <= j < i :: a[j] != '.'
  {
    if a == [] || a[0] == '.' then 0 else 1 + DotIndex(a[1..])
  }

  /** Reads the two fragments back out of a mock identifier. */
  function SplitAddress(a: string): Option<(string, string)>
  {
    var i := DotIndex(a);
    if i + 3 <= |a| && a[i..i + 3] == "..." then Some((a[..i], a[i + 3..])) else None
  }

  /** The identifier determines the fragments it was made from, and is at most 11 characters long. */
  lemma AddressRoundTrip(left: string, right: string)
    requires IsFragment(left) && IsFragment(right)
    ensures SplitAddress(MockAddress(left, right)) == Some((left, right))
    ensures |MockAddress(left, right)| <= 11
  {
    var a := MockAddress(left, right);
    var i := DotIndex(a);
    assert a[|left|] == '.';
    assert forall j | 0 <= j < |left| :: a[j] == left[j] && IsBase36(left[j]);
    assert i == |left|;
    assert a[..i] == left && a[i..i + 3] == "..." && a[i + 3..] == right;
  }

  // ---------------------------------------------------------------- the component state

  /** The price every recorded bid carries: a whole number of hundredths. */
  predicate RoundedPrices(bids: seq<Bid>)
  {
    forall i | 0 <= i < |bids| :: ToFixed2(bids[i].price) == bids[i].price
  }

  /**
   * The bid `handleSubmitBid` builds from the current state: it carries the
   * connected wallet, the current slot and the submission time; its price is
   * the current price to the nearest hundredth, so never below END_PRICE when
   * the current price is not.
   */
  function NewBid(id: string, wallet: string, price: real, now: int, slot: int): (b: Bid)
    ensures b.id == id && b.wallet == wallet && b.timestamp == now && b.slot == slot
    ensures -0.005 <= b.price - price <= 0.005
    ensures b.price == ToFixed2(price) && ToFixed2(b.price) == b.price
    ensures price >= END_PRICE ==> b.price >= END_PRICE
  {
    ToFixed2Idempotent(price);
    Bid(id, wallet, ToFixed2(price), now, slot)
  }

  class AuctionApp {
    /** AUCTION_START_TIME: fixed when the module loads. */
    const auctionStartTime: int

    var currentSlot: int
    var currentPrice: real
    var bids: seq<Bid>
    var walletConnected: bool
    var walletAddress: string
    var auctionPhase: Phase
    var timeRemaining: int

    /**
     * What every reachable state satisfies: the slot is at most two past the
     * target, the price never below END_PRICE, the time remaining never
     * negative, the ledger sorted by timestamp with every price in hundredths.
     */
    ghost predicate Valid()
      reads this
    {
      && currentSlot <= TARGET_SLOT + 2
      && currentPrice >= END_PRICE
      && timeRemaining >= 0
      && Sorted(bids)
      && RoundedPrices(bids)
    }

    /** The state of a freshly mounted `App`, `loadTime` being `Date.now()` at module load. */
    constructor (loadTime: int)
      ensures Valid()
      ensures auctionStartTime == loadTime - START_OFFSET
      ensures currentSlot == INITIAL_SLOT && currentPrice == START_PRICE && bids == []
      ensures !walletConnected && walletAddress == ""
      ensures auctionPhase == Active && timeRemaining == 0
    {
      auctionStartTime := loadTime - START_OFFSET;
      currentSlot := INITIAL_SLOT;
      currentPrice := START_PRICE;
      bids := [];
      walletConnected := false;
      walletAddress := "";
      auctionPhase := Active;
      timeRemaining := 0;
    }

    /** The Dutch-auction part of the state. */
    function DutchState(): Dutch
      reads this
    {
      Dutch(auctionPhase, currentPrice, timeRemaining)
    }

    /** The slot tick; `k` is the drawn increment `Math.floor(Math.random() * 3) + 1`. */
    method SlotTick(k: int)
      requires Valid()
      requires 1 <= k <= 3
      modifies this`currentSlot
      ensures Valid()
      ensures currentSlot == NextSlot(old(currentSlot), k)
      ensures old(currentSlot) < TARGET_SLOT ==> currentSlot == old(currentSlot) + k
      ensures old(currentSlot) >= TARGET_SLOT ==> currentSlot == old(currentSlot)
    {
      if currentSlot < TARGET_SLOT {
        currentSlot := currentSlot + k;
      }
    }

    /** The price/phase tick at wall-clock time `now`. */
    method PriceTick(now: int)
      requires Valid()
      modifies this`timeRemaining, this`auctionPhase, this`currentPrice
      ensures Valid()
      ensures DutchState() == Tick(old(DutchState()), now - auctionStartTime)
      ensures timeRemaining == TimeRemaining(now - auctionStartTime)
      ensures auctionPhase == NextPhase(old(auctionPhase), now - auctionStartTime)
      ensures now - auctionStartTime >= AUCTION_DURATION ==> currentPrice == old(currentPrice)
      ensures now - auctionStartTime < AUCTION_DURATION ==> currentPrice == ActivePrice(now - auctionStartTime)
    {
      var elapsed := now - auctionStartTime;
      var remaining := AUCTION_DURATION - elapsed;
      if remaining < 0 {
        remaining := 0;
      }
      timeRemaining := remaining;

      if elapsed >= AUCTION_DURATION + BATCH_BUILD_TIME {
        auctionPhase := Executed;
      } else if elapsed >= AUCTION_DURATION {
        auctionPhase := Building;
      } else {
        var progress := elapsed as real / AUCTION_DURATION as real;
        var price := START_PRICE - (START_PRICE - END_PRICE) * progress;
        currentPrice := if END_PRICE >= price then END_PRICE else price;
      }
    }

    /** `handleConnectWallet`, given the two random fragments of the mock identifier. */
    method ConnectWallet(left: string, right: string)
      requires Valid()
      requires IsFragment(left) && IsFragment(right)
      modifies this`walletAddress, this`walletConnected
      ensures Valid()
      ensures walletConnected
      ensures walletAddress == MockAddress(left, right)
      ensures SplitAddress(walletAddress) == Some((left, right)) && |walletAddress| <= 11
    {
      AddressRoundTrip(left, right);
      walletAddress := MockAddress(left, right);
      walletConnected := true;
    }

    /**
     * `handleSubmitBid`, given the random `id` and `Date.now()`: ignored
     * without a wallet; otherwise the new bid is appended and the ledger
     * re-sorted by timestamp.
     */
    method SubmitBid(id: string, now: int)
      requires Valid()
      modifies this`bids
      ensures Valid()
      ensures !walletConnected ==> bids == old(bids)
      ensures walletConnected ==> bids == Submit(old(bids), NewBid(id, walletAddress, currentPrice, now, currentSlot))
      ensures walletConnected ==> bids == Insert(NewBid(id, walletAddress, currentPrice, now, currentSlot), old(bids))
      ensures walletConnected ==> |bids| == |old(bids)| + 1
      ensures walletConnected ==> multiset(bids) == multiset(old(bids)) + multiset{NewBid(id, walletAddress, currentPrice, now, currentSlot)}
    {
      if !walletConnected {
        return;
      }
      var newBid := NewBid(id, walletAddress, currentPrice, now, currentSlot);
      SubmitFacts(bids, newBid);
      SubmitSorted(bids, newBid);
      ghost var before := bids;
      bids := Submit(bids, newBid);
      assert forall x | x in bids :: x in before || x == newBid by {
        forall x | x in bids ensures x in before || x == newBid {
          assert x in multiset(bids);
        }
      }
      forall i | 0 <= i < |bids| ensures ToFixed2(bids[i].price) == bids[i].price {
        assert bids[i] in bids;
      }
    }
  }
}
