/** The shop of lab 11: customers empty the stalls, a loader refills them, and main stops
    the loader when the last customer has left. One step is one stretch of code between
    taking and releasing a mutex. */
module Shop {

  const STALL_COUNT := 5
  const CUSTOMER_COUNT := 3
  const STALL_MIN_STOCK := 900
  const STALL_MAX_STOCK := 1100
  const NEED_MIN := 9900
  const NEED_MAX := 10100
  const LOADER_ADD := 200

  function Total(s: seq<int>): int {
    if s == [] then 0 else s[0] + Total(s[1..])
  }

  lemma {:induction false} TotalUpdate(s: seq<int>, i: nat, x: int)
    requires i < |s|
    ensures Total(s[i := x]) == Total(s) - s[i] + x
    decreases |s|
  {
    if i == 0 {
      assert s[i := x][1..] == s[1..];
    } else {
      assert s[i := x][1..] == s[1..][i - 1 := x];
      TotalUpdate(s[1..], i - 1, x);
    }
  }

  lemma {:induction false} TotalBounds(s: seq<int>, lo: int, hi: int)
    requires forall i | 0 <= i < |s| :: lo <= s[i] <= hi
    ensures lo * |s| <= Total(s) <= hi * |s|
    decreases |s|
  {
    if s != [] {
      TotalBounds(s[1..], lo, hi);
      assert lo * |s| == lo + lo * |s[1..]| && hi * |s| == hi + hi * |s[1..]|;
    }
  }

  // ---- the goods

  datatype Goods = Goods(stock: seq<int>, need: seq<int>, bought: int, delivered: int)

  /** What a customer takes: everything there is, or all that is still needed. */
  function Taken(stock: int, need: int): int {
    if stock > 0 then if stock > need then need else stock else 0
  }

  function AfterVisit(g: Goods, customer: nat, stall: nat): Goods
    requires customer < |g.need| && stall < |g.stock|
  {
    var taken := Taken(g.stock[stall], g.need[customer]);
    Goods(g.stock[stall := g.stock[stall] - taken], g.need[customer := g.need[customer] - taken],
          g.bought + taken, g.delivered)
  }

  function AfterDelivery(g: Goods, stall: nat): Goods
    requires stall < |g.stock|
  {
    g.(stock := g.stock[stall := g.stock[stall] + LOADER_ADD], delivered := g.delivered + 1)
  }

  class Market {
    const stock: array<int>
    const need: array<int>
    ghost var bought: int
    ghost var delivered: int

    constructor (stock: array<int>, need: array<int>)
      requires stock != need
      ensures this.stock == stock && this.need == need
      ensures Contents() == Goods(stock[..], need[..], 0, 0)
    {
      this.stock, this.need := stock, need;
      bought, delivered := 0, 0;
    }

    ghost function Contents(): Goods
      reads this, stock, need
    {
      Goods(stock[..], need[..], bought, delivered)
    }

    /** The critical section of a customer in a stall. */
    method Visit(customer: nat, stall: nat)
      requires stock != need && customer < need.Length && stall < stock.Length
      modifies this, stock, need
      ensures Contents() == AfterVisit(old(Contents()), customer, stall)
    {
      if stock[stall] > 0 {
        var taken := stock[stall];
        if taken > need[customer] {
          taken := need[customer];
        }
        stock[stall] := stock[stall] - taken;
        need[customer] := need[customer] - taken;
        bought := bought + taken;
      }
    }

    /** The critical section of the loader in a stall. */
    method Deliver(stall: nat)
      requires stock != need && stall < stock.Length
      modifies this, stock
      ensures Contents() == AfterDelivery(old(Contents()), stall)
    {
      stock[stall] := stock[stall] + LOADER_ADD;
      delivered := delivered + 1;
    }
  }

  // ---- the threads

  datatype Loader = Checking | Loading | Finished

  datatype State = State(
    goods: Goods,
    gone: seq<bool>,       // customers that have left
    loader: Loader,
    stop: bool,
    deliveredAtStop: int)  // deliveries when the stop flag was set

  datatype Action =
    | Visit(customer: nat, stall: nat)
    | Check                // the loader looks at the stop flag
    | Load(stall: nat)
    | Stop                 // main has joined every customer

  ghost predicate Init(s: State) {
    && |s.gone| == |s.goods.need|
    && (forall i | 0 <= i < |s.goods.stock| :: s.goods.stock[i] >= 0)
    && (forall i | 0 <= i < |s.goods.need| :: s.goods.need[i] > 0 && !s.gone[i])
    && s.goods.bought == 0 && s.goods.delivered == 0
    && s.loader == Checking && !s.stop
  }

  ghost predicate Next(s: State, a: Action, s': State) {
    && |s.gone| == |s.goods.need|
    && match a
       case Visit(c, k) =>
         && c < |s.gone| && !s.gone[c] && k < |s.goods.stock|
         && var after := AfterVisit(s.goods, c, k);
         && s' == s.(goods := after, gone := s.gone[c := after.need[c] <= 0])
       case Check =>
         s.loader.Checking? && s' == s.(loader := if s.stop then Finished else Loading)
       case Load(k) =>
         && s.loader.Loading? && k < |s.goods.stock|
         && s' == s.(goods := AfterDelivery(s.goods, k), loader := Checking)
       case Stop =>
         && !s.stop && (forall i | 0 <= i < |s.gone| :: s.gone[i])
         && s' == s.(stop := true, deliveredAtStop := s.goods.delivered)
  }

  /** Goods are conserved, nothing goes negative, and the threads end in order. */
  ghost predicate Inv(s0: State, s: State) {
    && |s.gone| == |s.goods.need| == |s0.goods.need| && |s.goods.stock| == |s0.goods.stock|
    && Total(s.goods.stock) + s.goods.bought == Total(s0.goods.stock) + LOADER_ADD * s.goods.delivered
    && Total(s.goods.need) + s.goods.bought == Total(s0.goods.need)
    && (forall i | 0 <= i < |s.goods.stock| :: s.goods.stock[i] >= 0)
    && (forall i | 0 <= i < |s.goods.need| :: 0 <= s.goods.need[i] <= s0.goods.need[i])
    && (forall i | 0 <= i < |s.gone| :: s.gone[i] <==> s.goods.need[i] == 0)
    && (s.stop ==> forall i | 0 <= i < |s.gone| :: s.gone[i])
    && (s.loader.Finished? ==> s.stop)
    && (s.stop ==> s.goods.delivered <= s.deliveredAtStop + if s.loader.Loading? then 0 else 1)
  }

  lemma VisitConserves(g: Goods, customer: nat, stall: nat)
    requires customer < |g.need| && stall < |g.stock|
    requires g.need[customer] >= 0 && g.stock[stall] >= 0
    ensures var h := AfterVisit(g, customer, stall);
            && Total(h.stock) + h.bought == Total(g.stock) + g.bought
            && Total(h.need) + h.bought == Total(g.need) + g.bought
            && h.stock[stall] >= 0 && 0 <= h.need[customer] <= g.need[customer]
            && (h.stock[stall] == 0 || h.need[customer] == 0)
            && g.stock[stall] - h.stock[stall] == g.need[customer] - h.need[customer]
            && (forall i | 0 <= i < |g.stock| && i != stall :: h.stock[i] == g.stock[i])
            && (forall c | 0 <= c < |g.need| && c != customer :: h.need[c] == g.need[c])
  {
    var taken := Taken(g.stock[stall], g.need[customer]);
    TotalUpdate(g.stock, stall, g.stock[stall] - taken);
    TotalUpdate(g.need, customer, g.need[customer] - taken);
  }

  /** A delivery puts 200 into the stall where the loader stands and changes nothing else. */
  lemma DeliveryRefillsOne(g: Goods, stall: nat)
    requires stall < |g.stock|
    ensures var h := AfterDelivery(g, stall);
            && h.need == g.need && h.bought == g.bought && h.delivered == g.delivered + 1
            && |h.stock| == |g.stock|
            && forall i | 0 <= i < |g.stock| :: h.stock[i] == g.stock[i] + if i == stall then 200 else 0
  {
  }

  lemma InvKept(s0: State, s: State, a: Action, s': State)
    requires Inv(s0, s) && Next(s, a, s')
    ensures Inv(s0, s')
    ensures forall i | 0 <= i < |s.goods.need| :: s'.goods.need[i] <= s.goods.need[i]
  {
    match a
    case Visit(c, k) => VisitConserves(s.goods, c, k);
    case Load(k) => TotalUpdate(s.goods.stock, k, s.goods.stock[k] + LOADER_ADD);
    case _ =>
  }

  // ---- whole runs

  ghost predicate Run(states: seq<State>, actions: seq<Action>) {
    && |states| == |actions| + 1 && Init(states[0])
    && forall k | 0 <= k < |actions| :: Next(states[k], actions[k], states[k + 1])
  }

  lemma {:induction false} RunKeepsInv(states: seq<State>, actions: seq<Action>, k: nat)
    requires Run(states, actions) && k < |states|
    ensures Inv(states[0], states[k])
  {
    if k > 0 {
      RunKeepsInv(states, actions, k - 1);
      InvKept(states[0], states[k - 1], actions[k - 1], states[k]);
    }
  }

  /** How often the loader has been in a stall. */
  function Loads(actions: seq<Action>, stall: nat): nat {
    if actions == [] then 0
    else Loads(actions[..|actions| - 1], stall) + if actions[|actions| - 1] == Load(stall) then 1 else 0
  }

  /** What a customer has carried out of a stall: the fall of its need on each visit there. */
  ghost function Bought(states: seq<State>, actions: seq<Action>, n: nat, customer: nat, stall: nat): int
    requires Run(states, actions) && n <= |actions| && customer < |states[0].goods.need|
  {
    if n == 0 then 0
    else
      RunKeepsInv(states, actions, n - 1);
      RunKeepsInv(states, actions, n);
      Bought(states, actions, n - 1, customer, stall) +
      if actions[n - 1] == Visit(customer, stall)
      then states[n - 1].goods.need[customer] - states[n].goods.need[customer]
      else 0
  }

  ghost function BoughtByAll(states: seq<State>, actions: seq<Action>, n: nat, stall: nat, customers: nat): int
    requires Run(states, actions) && n <= |actions| && customers <= |states[0].goods.need|
  {
    if customers == 0 then 0
    else BoughtByAll(states, actions, n, stall, customers - 1) + Bought(states, actions, n, customers - 1, stall)
  }

  ghost function BoughtAnywhere(states: seq<State>, actions: seq<Action>, n: nat, customer: nat, stalls: nat): int
    requires Run(states, actions) && n <= |actions| && customer < |states[0].goods.need|
  {
    if stalls == 0 then 0
    else BoughtAnywhere(states, actions, n, customer, stalls - 1) + Bought(states, actions, n, customer, stalls - 1)
  }

  /** Only the customer of the last step has bought anything in it, and only in its stall. */
  lemma {:induction false} AllBoughtStep(states: seq<State>, actions: seq<Action>, n: nat, stall: nat, customers: nat)
    requires Run(states, actions) && 0 < n <= |actions| && customers <= |states[0].goods.need|
    requires |states[n - 1].goods.need| == |states[n].goods.need| == |states[0].goods.need|
    ensures BoughtByAll(states, actions, n, stall, customers) ==
            BoughtByAll(states, actions, n - 1, stall, customers) +
            (match actions[n - 1]
             case Visit(c, k) =>
               if c < customers && k == stall then states[n - 1].goods.need[c] - states[n].goods.need[c] else 0
             case _ => 0)
  {
    if customers > 0 {
      AllBoughtStep(states, actions, n, stall, customers - 1);
    }
  }

  lemma {:induction false} AnywhereStep(states: seq<State>, actions: seq<Action>, n: nat, customer: nat, stalls: nat)
    requires Run(states, actions) && 0 < n <= |actions| && customer < |states[0].goods.need|
    requires |states[n - 1].goods.need| == |states[n].goods.need| == |states[0].goods.need|
    ensures BoughtAnywhere(states, actions, n, customer, stalls) ==
            BoughtAnywhere(states, actions, n - 1, customer, stalls) +
            (match actions[n - 1]
             case Visit(c, k) =>
               if c == customer && k < stalls then states[n - 1].goods.need[c] - states[n].goods.need[c] else 0
             case _ => 0)
  {
    if stalls > 0 {
      AnywhereStep(states, actions, n, customer, stalls - 1);
    }
  }

  /** One step, stall by stall and customer by customer. */
  ghost predicate StepLedger(s: State, a: Action, s': State) {
    && |s'.goods.stock| == |s.goods.stock| && |s'.goods.need| == |s.goods.need|
    && (a.Visit? ==> a.stall < |s.goods.stock| && a.customer < |s.goods.need|)
    && (forall i | 0 <= i < |s.goods.stock| ::
          s'.goods.stock[i] == s.goods.stock[i]
          + (if a == Load(i) then LOADER_ADD else 0)
          - (if a.Visit? && a.stall == i then s.goods.need[a.customer] - s'.goods.need[a.customer] else 0))
    && (forall c | 0 <= c < |s.goods.need| && !(a.Visit? && a.customer == c) ::
          s'.goods.need[c] == s.goods.need[c])
  }

  lemma StepAccounts(s0: State, s: State, a: Action, s': State)
    requires Inv(s0, s) && Next(s, a, s')
    ensures StepLedger(s, a, s')
  {
    match a
    case Visit(c, k) => VisitConserves(s.goods, c, k);
    case Load(k) => DeliveryRefillsOne(s.goods, k);
    case _ =>
  }

  lemma RunStep(states: seq<State>, actions: seq<Action>, n: nat)
    requires Run(states, actions) && 0 < n <= |actions|
    ensures |states[n - 1].goods.need| == |states[0].goods.need|
    ensures |states[n - 1].goods.stock| == |states[0].goods.stock|
    ensures StepLedger(states[n - 1], actions[n - 1], states[n])
  {
    RunKeepsInv(states, actions, n - 1);
    StepAccounts(states[0], states[n - 1], actions[n - 1], states[n]);
  }

  /** The ledger of every stall, in every run: what it started with, 200 for each time the
      loader was there, less what each customer carried out of it. */
  lemma {:induction false} StallLedger(states: seq<State>, actions: seq<Action>, n: nat, stall: nat)
    requires Run(states, actions) && n <= |actions| && stall < |states[0].goods.stock|
    ensures |states[n].goods.stock| == |states[0].goods.stock|
    ensures states[n].goods.stock[stall] ==
            states[0].goods.stock[stall] + LOADER_ADD * Loads(actions[..n], stall)
            - BoughtByAll(states, actions, n, stall, |states[0].goods.need|)
  {
    if n == 0 {
      NothingBoughtYet(states, actions, stall, |states[0].goods.need|);
    } else {
      StallLedger(states, actions, n - 1, stall);
      RunStep(states, actions, n);
      AllBoughtStep(states, actions, n, stall, |states[0].goods.need|);
      assert actions[..n][..n - 1] == actions[..n - 1];
    }
  }

  lemma {:induction false} NothingBoughtYet(states: seq<State>, actions: seq<Action>, stall: nat, customers: nat)
    requires Run(states, actions) && customers <= |states[0].goods.need|
    ensures BoughtByAll(states, actions, 0, stall, customers) == 0
  {
    if customers > 0 {
      NothingBoughtYet(states, actions, stall, customers - 1);
    }
  }

  lemma {:induction false} NothingBoughtAnywhere(states: seq<State>, actions: seq<Action>, customer: nat, stalls: nat)
    requires Run(states, actions) && customer < |states[0].goods.need|
    ensures BoughtAnywhere(states, actions, 0, customer, stalls) == 0
  {
    if stalls > 0 {
      NothingBoughtAnywhere(states, actions, customer, stalls - 1);
    }
  }

  /** The ledger of every customer: what it needs is what it needed less what it has carried
      out of the stalls. */
  lemma {:induction false} CustomerLedger(states: seq<State>, actions: seq<Action>, n: nat, customer: nat)
    requires Run(states, actions) && n <= |actions| && customer < |states[0].goods.need|
    ensures |states[n].goods.need| == |states[0].goods.need|
    ensures states[n].goods.need[customer] ==
            states[0].goods.need[customer]
            - BoughtAnywhere(states, actions, n, customer, |states[0].goods.stock|)
  {
    if n == 0 {
      NothingBoughtAnywhere(states, actions, customer, |states[0].goods.stock|);
    } else {
      CustomerLedger(states, actions, n - 1, customer);
      RunStep(states, actions, n);
      AnywhereStep(states, actions, n, customer, |states[0].goods.stock|);
    }
  }

  ghost predicate Over(s: State) {
    s.loader.Finished? && forall i | 0 <= i < |s.gone| :: s.gone[i]
  }

  /** When a run is over, every need has been met, the stock that is left says exactly how
      much was delivered, and at most one delivery came after the stop flag. */
  lemma FinalBalance(states: seq<State>, actions: seq<Action>, k: nat)
    requires Run(states, actions) && k < |states| && Over(states[k])
    ensures states[k].goods.bought == Total(states[0].goods.need)
    ensures Total(states[k].goods.stock) ==
            Total(states[0].goods.stock) + LOADER_ADD * states[k].goods.delivered - Total(states[0].goods.need)
    ensures states[k].goods.delivered <= states[k].deliveredAtStop + 1
  {
    RunKeepsInv(states, actions, k);
    TotalBounds(states[k].goods.need, 0, 0);
  }

  /** With the program's constants every run that ends has made at least 121 deliveries. */
  lemma AtLeast121Deliveries(states: seq<State>, actions: seq<Action>, k: nat)
    requires Run(states, actions) && k < |states| && Over(states[k])
    requires |states[0].goods.stock| == STALL_COUNT && |states[0].goods.need| == CUSTOMER_COUNT
    requires forall i | 0 <= i < STALL_COUNT :: STALL_MIN_STOCK <= states[0].goods.stock[i] <= STALL_MAX_STOCK
    requires forall i | 0 <= i < CUSTOMER_COUNT :: NEED_MIN <= states[0].goods.need[i] <= NEED_MAX
    ensures states[k].goods.delivered >= 121
  {
    FinalBalance(states, actions, k);
    RunKeepsInv(states, actions, k);
    TotalBounds(states[0].goods.stock, STALL_MIN_STOCK, STALL_MAX_STOCK);
    TotalBounds(states[0].goods.need, NEED_MIN, NEED_MAX);
    NonNegativeTotal(states[k].goods.stock);
  }

  lemma {:induction false} NonNegativeTotal(s: seq<int>)
    requires forall i | 0 <= i < |s| :: s[i] >= 0
    ensures Total(s) >= 0
    decreases |s|
  {
    if s != [] {
      NonNegativeTotal(s[1..]);
    }
  }
}
