/**
  The web traffic simulator: a session follows a plan of actions, becomes authenticated when the
  visitor logs in, and lies wholly in the past and inside the lookback window.
*/
module WebJourney {
  import opened Common

  datatype Action =
    PageView | Scroll | Search | Click | CourseView | UserLogin | AddToCart | CheckoutStarted | Purchase

  /** The settings that constrain a session; `roll` and the ranges below stand for the random
      number generator. */
  datatype Config = Config(minEvents: int, maxEvents: int, lookbackHours: int) {
    predicate Valid() {
      && minEvents >= 1 && maxEvents >= minEvents && lookbackHours >= 1
      && lookbackHours * 3600 >= (maxEvents - 1) * 45 + 30
    }
  }

  type Dice = nat -> nat

  // ----- The plan -----

  const BUYER_FILLERS: seq<Action> := [Scroll, Click, CourseView]
  const BROWSER_FILLERS: seq<Action> := [Scroll, Click, CourseView, PageView]

  function Fillers(roll: Dice, options: seq<Action>, from: nat, count: nat): (r: seq<Action>)
    requires options != []
    ensures |r| == count
    ensures forall a :: a in r ==> a in options
    decreases count
  {
    if count == 0 then [] else
      var rest := Fillers(roll, options, from, count - 1);
      rest + [options[roll(from + count - 1) % |options|]]
  }

  function BuyerOpening(n: nat): seq<Action> {
    if n == 8 then [PageView, Search, PageView] else [PageView, Scroll, Search]
  }

  function BuyerMiddle(n: nat): seq<Action> {
    if n == 8 then [UserLogin, AddToCart, CheckoutStarted] else [PageView, UserLogin, AddToCart, CheckoutStarted]
  }

  function BuyerPlan(n: nat, roll: Dice): seq<Action> {
    var fixed := |BuyerOpening(n)| + |BuyerMiddle(n)| + 1;
    BuyerOpening(n) + Fillers(roll, BUYER_FILLERS, 0, if n > fixed then n - fixed else 0) + BuyerMiddle(n) + [Purchase]
  }

  function Opening(logsIn: bool): seq<Action> {
    [PageView, Scroll, Search, Click, PageView] + if logsIn then [UserLogin] else []
  }

  function BrowserPlan(n: nat, logsIn: bool, roll: Dice): seq<Action> {
    var opening := Opening(logsIn);
    if n <= |opening| then opening[..n] else opening + Fillers(roll, BROWSER_FILLERS, 0, n - |opening|)
  }

  function Plan(n: nat, isBuyer: bool, logsIn: bool, roll: Dice): seq<Action> {
    if isBuyer then BuyerPlan(n, roll) else BrowserPlan(n, logsIn, roll)
  }

  /** A plan has the requested length exactly if it is a browser's or at least eight long, which
      is when a visitor may be a buyer. */
  lemma PlanLengthIsExact(n: nat, isBuyer: bool, logsIn: bool, roll: Dice)
    ensures |Plan(n, isBuyer, logsIn, roll)| == n <==> !isBuyer || n >= 8
  {
  }

  predicate OnlyAt(plan: seq<Action>, a: Action, i: int) {
    0 <= i < |plan| && forall j :: 0 <= j < |plan| ==> (plan[j] == a <==> j == i)
  }

  lemma OnlyInTail(head: seq<Action>, tail: seq<Action>, a: Action, i: nat)
    requires a !in head && OnlyAt(tail, a, i)
    ensures OnlyAt(head + tail, a, |head| + i)
  {
    var p := head + tail;
    forall j | 0 <= j < |p| ensures p[j] == a <==> j == |head| + i {
      if j < |head| {
        assert p[j] == head[j] && head[j] in head;
      } else {
        assert p[j] == tail[j - |head|];
      }
    }
  }

  lemma BuyerEnding(n: nat)
    ensures var t := BuyerMiddle(n) + [Purchase];
      && OnlyAt(t, UserLogin, |t| - 4) && OnlyAt(t, AddToCart, |t| - 3)
      && OnlyAt(t, CheckoutStarted, |t| - 2) && OnlyAt(t, Purchase, |t| - 1)
  {
  }

  lemma BuyerBeginning(n: nat, fillers: seq<Action>)
    requires forall a :: a in fillers ==> a in BUYER_FILLERS
    ensures forall a :: a in {UserLogin, AddToCart, CheckoutStarted, Purchase} ==> a !in BuyerOpening(n) + fillers
  {
  }

  /** A buyer logs in, fills the cart, starts the checkout and buys, each exactly once, in that
      order, as the last four actions. */
  lemma BuyersBuyInOrder(n: nat, roll: Dice)
    ensures var p := BuyerPlan(n, roll);
      && OnlyAt(p, UserLogin, |p| - 4) && OnlyAt(p, AddToCart, |p| - 3)
      && OnlyAt(p, CheckoutStarted, |p| - 2) && OnlyAt(p, Purchase, |p| - 1)
  {
    var fixed := |BuyerOpening(n)| + |BuyerMiddle(n)| + 1;
    var fillers := Fillers(roll, BUYER_FILLERS, 0, if n > fixed then n - fixed else 0);
    var head, tail := BuyerOpening(n) + fillers, BuyerMiddle(n) + [Purchase];
    assert BuyerPlan(n, roll) == head + tail;
    BuyerBeginning(n, fillers);
    BuyerEnding(n);
    hide *;
    OnlyInTail(head, tail, UserLogin, |tail| - 4);
    OnlyInTail(head, tail, AddToCart, |tail| - 3);
    OnlyInTail(head, tail, CheckoutStarted, |tail| - 2);
    OnlyInTail(head, tail, Purchase, |tail| - 1);
  }

  /** Others never buy; they log in at most once, as their sixth action, if they get that far. */
  lemma BrowsersDoNotBuy(n: nat, logsIn: bool, roll: Dice)
    ensures var p := BrowserPlan(n, logsIn, roll);
      && (forall a :: a in p ==> a !in {AddToCart, CheckoutStarted, Purchase})
      && (if logsIn && n >= 6 then OnlyAt(p, UserLogin, 5) else UserLogin !in p)
  {
    var opening, p := Opening(logsIn), BrowserPlan(n, logsIn, roll);
    if n > |opening| {
      var fillers := Fillers(roll, BROWSER_FILLERS, 0, n - |opening|);
      hide Fillers;
      forall j | |opening| <= j < n ensures p[j] in BROWSER_FILLERS {
        assert p[j] == fillers[j - |opening|] && p[j] in fillers;
      }
    }
    forall j | 0 <= j < n && j < |opening| ensures p[j] == opening[j] {
    }
  }

  /** How a buyer's journey begins: three looks around, and then scrolling, clicking and viewing
      courses as the dice say, until the last actions. */
  lemma BuyersLookAround(n: nat, roll: Dice)
    requires n >= 8
    ensures var p := BuyerPlan(n, roll); var middle := if n == 8 then 3 else 4;
      && |p| == n && p[..3] == (if n == 8 then [PageView, Search, PageView] else [PageView, Scroll, Search])
      && (forall k :: 3 <= k < n - middle - 1 ==> p[k] == [Scroll, Click, CourseView][roll(k - 3) % 3])
      && (n > 8 ==> p[n - 5] == PageView)
  {
    var fixed := |BuyerOpening(n)| + |BuyerMiddle(n)| + 1;
    FillersAreRolled(roll, BUYER_FILLERS, n - fixed);
  }

  lemma {:induction false} FillersAreRolled(roll: Dice, options: seq<Action>, count: nat)
    requires options != []
    ensures forall k :: 0 <= k < count ==> Fillers(roll, options, 0, count)[k] == options[roll(k) % |options|]
  {
    if count > 0 { FillersAreRolled(roll, options, count - 1); }
  }

  /** Anyone else's begins with the same five actions, then perhaps a login, and goes on as the dice
      say; a short one is cut off. */
  lemma BrowsersLookAround(n: nat, logsIn: bool, roll: Dice)
    ensures var p := BrowserPlan(n, logsIn, roll); var opening := if logsIn then 6 else 5;
      && |p| == n
      && (forall k :: 0 <= k < n && k < 5 ==> p[k] == [PageView, Scroll, Search, Click, PageView][k])
      && (forall k :: opening <= k < n ==> p[k] == [Scroll, Click, CourseView, PageView][roll(k - opening) % 4])
  {
    var opening, p := Opening(logsIn), BrowserPlan(n, logsIn, roll);
    assert opening[..5] == [PageView, Scroll, Search, Click, PageView];
    forall k | 0 <= k < n && k < 5 ensures p[k] == opening[..5][k] {
    }
    if n > |opening| {
      FillersAreRolled(roll, BROWSER_FILLERS, n - |opening|);
      var fillers := Fillers(roll, BROWSER_FILLERS, 0, n - |opening|);
      hide Fillers;
      forall k | |opening| <= k < n ensures p[k] == BROWSER_FILLERS[roll(k - |opening|) % 4] {
        assert p[k] == fillers[k - |opening|];
      }
    }
  }

  // ----- Time and login -----

  datatype Event = Event(action: Action, time: int, identified: bool)

  /** rng.randint(low, high) */
  function RandInt(roll: nat, low: int, high: int): (r: int)
    requires low <= high
    ensures low <= r <= high
  {
    low + roll % (high - low + 1)
  }

  function MinimumAge(n: nat): int { (n - 1) * 45 + 30 }

  function MaximumAge(c: Config): int { c.lookbackHours * 3600 }

  /** The start range is non-empty for every number of events the settings allow exactly when the
      settings pass the check on the lookback window. */
  lemma StartRangeIsNonEmpty(c: Config)
    requires 1 <= c.minEvents <= c.maxEvents && c.lookbackHours >= 1
    ensures c.Valid() <==> forall n: nat :: c.minEvents <= n <= c.maxEvents ==> MinimumAge(n) <= MaximumAge(c)
  {
    if forall n: nat :: c.minEvents <= n <= c.maxEvents ==> MinimumAge(n) <= MaximumAge(c) {
      assert MinimumAge(c.maxEvents) <= MaximumAge(c);
    }
  }

  /** Seconds since the start of the session at event i. */
  function Elapsed(gaps: Dice, i: nat): int {
    if i == 0 then 0 else Elapsed(gaps, i - 1) + RandInt(gaps(i), 2, 45)
  }

  predicate HasLoggedIn(plan: seq<Action>, i: nat) {
    exists j :: 0 <= j <= i && j < |plan| && plan[j] == UserLogin
  }

  function SessionStart(c: Config, n: nat, clock: int, age: nat): int
    requires MinimumAge(n) <= MaximumAge(c)
  {
    clock - RandInt(age, MinimumAge(n), MaximumAge(c))
  }

  lemma {:induction false} ElapsedGrows(gaps: Dice, i: nat, j: nat)
    requires i <= j
    ensures 2 * (j - i) <= Elapsed(gaps, j) - Elapsed(gaps, i) <= 45 * (j - i)
    decreases j
  {
    if i < j { ElapsedGrows(gaps, i, j - 1); }
  }

  function EventAt(plan: seq<Action>, start: int, gaps: Dice, i: nat): Event
    requires i < |plan|
  {
    Event(plan[i], start + Elapsed(gaps, i), HasLoggedIn(plan, i))
  }

  ghost predicate IsSession(c: Config, es: seq<Event>, plan: seq<Action>, clock: int, age: nat, gaps: Dice)
    requires MinimumAge(|plan|) <= MaximumAge(c)
  {
    && |es| == |plan|
    && forall i :: 0 <= i < |es| ==> es[i] == EventAt(plan, SessionStart(c, |plan|, clock, age), gaps, i)
  }

  /** Every event lies at least 30 seconds before the clock and inside the lookback window, each
      two to 45 seconds after the one before; they are the actions of the plan, and the visitor is
      identified in exactly those from the first login on. */
  lemma SessionsLieInTheWindow(c: Config, es: seq<Event>, plan: seq<Action>, clock: int, age: nat, gaps: Dice)
    requires c.Valid() && c.minEvents <= |plan| <= c.maxEvents && MinimumAge(|plan|) <= MaximumAge(c)
    requires IsSession(c, es, plan, clock, age, gaps)
    ensures forall i :: 0 <= i < |es| ==> clock - c.lookbackHours * 3600 <= es[i].time <= clock - 30
    ensures forall i, j :: 0 <= i < j < |es| ==> es[i].time + 2 <= es[j].time
    ensures forall i :: 0 < i < |es| ==> es[i].time <= es[i - 1].time + 45
    ensures var least := (|plan| - 1) * 45 + 30;
      es[0].time == clock - (least + age % (c.lookbackHours * 3600 - least + 1))
    ensures forall i :: 0 <= i < |es| ==> es[i].action == plan[i]
    ensures forall i :: 0 <= i < |es| ==> (es[i].identified <==> UserLogin in plan[..i + 1])
    ensures forall i, j :: 0 <= i <= j < |es| && es[i].identified ==> es[j].identified
  {
    forall i | 0 < i < |es| ensures es[i].time <= es[i - 1].time + 45 {
      ElapsedGrows(gaps, i - 1, i);
    }
    forall i | 0 <= i < |es| ensures es[i].identified <==> UserLogin in plan[..i + 1] {
      if UserLogin in plan[..i + 1] {
        var j :| 0 <= j < i + 1 && plan[..i + 1][j] == UserLogin;
        assert plan[j] == UserLogin;
      }
      if j :| 0 <= j <= i && plan[j] == UserLogin { assert plan[..i + 1][j] == UserLogin; }
    }
    forall i | 0 <= i < |es| ensures clock - c.lookbackHours * 3600 <= es[i].time <= clock - 30 {
      ElapsedGrows(gaps, 0, i);
    }
    forall i, j | 0 <= i < j < |es| ensures es[i].time + 2 <= es[j].time {
      ElapsedGrows(gaps, i, j);
    }
    forall i, j | 0 <= i <= j < |es| && es[i].identified ensures es[j].identified {
      var k :| 0 <= k <= i && k < |plan| && plan[k] == UserLogin;
      assert 0 <= k <= j;
    }
  }

  /** A buyer is identified in exactly the last four events. */
  lemma BuyersAreIdentified(c: Config, es: seq<Event>, n: nat, roll: Dice, clock: int, age: nat, gaps: Dice)
    requires n >= 8 && MinimumAge(|BuyerPlan(n, roll)|) <= MaximumAge(c)
    requires IsSession(c, es, BuyerPlan(n, roll), clock, age, gaps)
    ensures |es| == n && forall i :: 0 <= i < n ==> (es[i].identified <==> i >= n - 4)
  {
    PlanLengthIsExact(n, true, true, roll);
    BuyersBuyInOrder(n, roll);
    hide BuyerPlan;
    forall i | 0 <= i < n ensures es[i].identified <==> i >= n - 4 {
      if i >= n - 4 { assert BuyerPlan(n, roll)[n - 4] == UserLogin; }
    }
  }

  // ----- The loops -----

  method JourneyPlan(n: nat, isBuyer: bool, logsIn: bool, roll: Dice) returns (plan: seq<Action>)
    ensures plan == Plan(n, isBuyer, logsIn, roll)
  {
    hide BuyerOpening, BuyerMiddle, Opening;
    if isBuyer {
      var fixed := |BuyerOpening(n)| + |BuyerMiddle(n)| + 1;
      var count := if n > fixed then n - fixed else 0;
      var fillers, i := [], 0;
      while i < count
        invariant 0 <= i <= count && fillers == Fillers(roll, BUYER_FILLERS, 0, i)
      {
        fillers, i := fillers + [BUYER_FILLERS[roll(i) % |BUYER_FILLERS|]], i + 1;
      }
      return BuyerOpening(n) + fillers + BuyerMiddle(n) + [Purchase];
    }
    var opening := Opening(logsIn);
    plan := opening;
    ghost var added := 0;
    while |plan| < n
      invariant |plan| == |opening| + added && (added > 0 ==> |plan| <= n)
      invariant plan == opening + Fillers(roll, BROWSER_FILLERS, 0, added)
      decreases n - |plan|
    {
      plan := plan + [BROWSER_FILLERS[roll(|plan| - |opening|) % |BROWSER_FILLERS|]];
      added := added + 1;
    }
    plan := plan[..n];
  }

  method GenerateSession(c: Config, plan: seq<Action>, clock: int, age: nat, gaps: Dice) returns (es: seq<Event>)
    requires c.Valid() && c.minEvents <= |plan| <= c.maxEvents
    ensures MinimumAge(|plan|) <= MaximumAge(c) && IsSession(c, es, plan, clock, age, gaps)
  {
    StartRangeIsNonEmpty(c);
    var start := SessionStart(c, |plan|, clock, age);
    hide RandInt, HasLoggedIn, SessionStart, MinimumAge, MaximumAge, EventAt;
    es := [];
    var elapsed, authenticated, i := 0, false, 0;
    while i < |plan|
      invariant 0 <= i <= |plan| && |es| == i && elapsed == (if i == 0 then 0 else Elapsed(gaps, i - 1))
      invariant authenticated <==> i > 0 && HasLoggedIn(plan, i - 1)
      invariant forall k :: 0 <= k < i ==> es[k] == EventAt(plan, start, gaps, k)
    {
      if i > 0 { elapsed := elapsed + RandInt(gaps(i), 2, 45); }
      var login := plan[i] == UserLogin;
      NextEvent(plan, start, gaps, i);
      es := es + [Event(plan[i], start + elapsed, authenticated || login)];
      if login { authenticated := true; }
      i := i + 1;
    }
  }

  lemma NextEvent(plan: seq<Action>, start: int, gaps: Dice, i: nat)
    requires i < |plan|
    ensures HasLoggedIn(plan, i) <==> (i > 0 && HasLoggedIn(plan, i - 1)) || plan[i] == UserLogin
    ensures EventAt(plan, start, gaps, i) == Event(plan[i], start + Elapsed(gaps, i), HasLoggedIn(plan, i))
    ensures Elapsed(gaps, i) == if i == 0 then 0 else Elapsed(gaps, i - 1) + RandInt(gaps(i), 2, 45)
  {
    hide RandInt;
  }
}
