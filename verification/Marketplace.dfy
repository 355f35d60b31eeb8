/**
 The strategy marketplace (reddesk/marketplace.py, reddesk/entitlements.py): listings offer versions of a
 strategy, a purchase grants one of them, and licences expire, are revoked, refunded or advanced.

 Rows are numbered in the order they were written. One event is one request, which is one transaction:
 a request that raises changes nothing. Money is an exact rational.
 */
module Marketplace {
  import opened Wrappers

  datatype VersionStatus = Draft | Published

  datatype Version = Version(strategy: nat, status: VersionStatus)

  datatype Access = Pinned | Rolling

  datatype Cadence = OneTime | Monthly | Annual

  datatype Listing = Listing(
    org: string, strategy: nat, onSale: bool, price: real, currency: string, cadence: Cadence, access: Access)

  /** A version a listing offers; `evidence` is the version the cited backtest ran. */
  datatype Offer = Offer(listing: nat, version: nat, current: bool, evidence: Option<nat>)

  datatype PurchaseStatus = Pending | Paid | Refunded

  datatype Purchase = Purchase(
    org: string, listing: nat, version: nat, status: PurchaseStatus, amount: real, fee: real, net: real,
    currency: string, key: Option<string>, at: int)

  datatype EntitlementStatus = Active | Expired | Revoked

  datatype Entitlement = Entitlement(
    org: string, listing: nat, strategy: nat, version: nat, access: Access, status: EntitlementStatus,
    purchase: nat, validFrom: int, validUntil: Option<int>)

  /** `strategies` holds each strategy's owner. */
  datatype Market = Market(
    strategies: seq<string>, versions: seq<Version>, listings: seq<Listing>, offers: seq<Offer>,
    purchases: seq<Purchase>, entitlements: seq<Entitlement>)

  const EMPTY := Market([], [], [], [], [], [])

  datatype Settlement = Settled | Unsettled | Declined

  datatype Event =
    | NewStrategy(org: string)
    | NewVersion(strategy: nat)
    | Publish(version: nat)
    | NewListing(listing: Listing)
    | SetOnSale(id: nat, onSale: bool)
    | OfferVersion(org: string, to: nat, offered: nat, makeCurrent: bool, evidence: Option<nat>)
    | Buy(org: string, what: nat, key: Option<string>, settlement: Settlement, now: int)
    | Refund(org: string, purchase: nat, accepted: bool)
    | Advance(entitlement: nat)
    | Revoke(entitlement: nat)
    | ExpireDue(now: int)

  // ----- offering a version -----

  /** The listing's offer of the version, or the end. */
  function FindOffer(offers: seq<Offer>, l: nat, v: nat, from: nat): (i: nat)
    requires from <= |offers|
    ensures from <= i <= |offers| && (i < |offers| ==> offers[i].listing == l && offers[i].version == v)
    ensures forall k :: from <= k < i ==> offers[k].listing != l || offers[k].version != v
    decreases |offers| - from
  {
    if from == |offers| || (offers[from].listing == l && offers[from].version == v) then from
    else FindOffer(offers, l, v, from + 1)
  }

  function Put(offers: seq<Offer>, i: nat, l: nat, v: nat, makeCurrent: bool, evidence: Option<nat>): seq<Offer>
    requires i <= |offers|
  {
    if i < |offers| then offers[i := offers[i].(evidence := evidence)] else offers + [Offer(l, v, makeCurrent, evidence)]
  }

  /** `other.is_current = other is offer`, for the offers of one listing. */
  function MadeCurrent(offers: seq<Offer>, l: nat, chosen: nat): (r: seq<Offer>)
    ensures |r| == |offers|
    ensures forall i :: 0 <= i < |offers| ==> r[i] == if offers[i].listing == l then offers[i].(current := i == chosen) else offers[i]
  {
    seq(|offers|, i requires 0 <= i < |offers| =>
      if offers[i].listing == l then offers[i].(current := i == chosen) else offers[i])
  }

  function Offered(offers: seq<Offer>, l: nat, v: nat, makeCurrent: bool, evidence: Option<nat>): seq<Offer> {
    var i := FindOffer(offers, l, v, 0);
    var put := Put(offers, i, l, v, makeCurrent, evidence);
    if makeCurrent then MadeCurrent(put, l, i) else put
  }

  predicate MayOffer(s: Market, org: string, l: nat, v: nat, evidence: Option<nat>) {
    && l < |s.listings| && s.listings[l].org == org
    && v < |s.versions| && s.versions[v].strategy < |s.strategies| && s.strategies[s.versions[v].strategy] == org
    && s.versions[v].strategy == s.listings[l].strategy && s.versions[v].status.Published?
    && (evidence.Some? ==> evidence.value == v)
  }

  /** The listing's current offer, or the end. */
  function FindCurrent(offers: seq<Offer>, l: nat, from: nat): (i: nat)
    requires from <= |offers|
    ensures from <= i <= |offers| && (i < |offers| ==> offers[i].listing == l && offers[i].current)
    ensures forall k :: from <= k < i ==> !(offers[k].listing == l && offers[k].current)
    decreases |offers| - from
  {
    if from == |offers| || (offers[from].listing == l && offers[from].current) then from else FindCurrent(offers, l, from + 1)
  }

  // ----- buying -----

  const FEE_RATE: real := 0.20

  /** The nearest integer, and of two equally near the even one. */
  function HalfEven(x: real): int {
    var low := x.Floor;
    if x - low as real < 0.5 || (x - low as real == 0.5 && low % 2 == 0) then low else low + 1
  }

  /** `quantize(Decimal("0.01"))`. */
  function Cents(x: real): real {
    HalfEven(x * 100.0) as real / 100.0
  }

  function Term(cadence: Cadence): Option<int> {
    match cadence
    case Monthly => Some(30 * 86_400)
    case Annual => Some(365 * 86_400)
    case OneTime => None
  }

  predicate Keyed(key: Option<string>) {
    key.Some? && key.value != ""
  }

  /** The organization's purchase under this key, or the end. */
  function FindPurchase(ps: seq<Purchase>, org: string, key: Option<string>, from: nat): (i: nat)
    requires from <= |ps|
    ensures from <= i <= |ps| && (i < |ps| ==> ps[i].org == org && ps[i].key == key)
    ensures forall k :: from <= k < i ==> ps[k].org != org || ps[k].key != key
    decreases |ps| - from
  {
    if from == |ps| || (ps[from].org == org && ps[from].key == key) then from else FindPurchase(ps, org, key, from + 1)
  }

  /** The entitlement the purchase granted, or the end. */
  function FindGranted(es: seq<Entitlement>, org: string, p: nat, from: nat): (i: nat)
    requires from <= |es|
    ensures from <= i <= |es| && (i < |es| ==> es[i].org == org && es[i].purchase == p)
    ensures forall k :: from <= k < i ==> es[k].org != org || es[k].purchase != p
    decreases |es| - from
  {
    if from == |es| || (es[from].org == org && es[from].purchase == p) then from else FindGranted(es, org, p, from + 1)
  }

  /** A retry of a purchase already made, which is answered from the ledger. */
  predicate Retry(s: Market, org: string, key: Option<string>) {
    Keyed(key)
    && var p := FindPurchase(s.purchases, org, key, 0);
    p < |s.purchases| && FindGranted(s.entitlements, org, p, 0) < |s.entitlements|
  }

  predicate MayBuy(s: Market, org: string, l: nat) {
    l < |s.listings| && s.listings[l].onSale && s.listings[l].org != org
  }

  /** A new purchase goes through: not a retry, the listing has a current version, and the charge settles.
      An unsettled charge raises after its row was added, so the row is rolled back with it. */
  predicate Buys(s: Market, org: string, l: nat, key: Option<string>, settlement: Settlement) {
    MayBuy(s, org, l) && !Retry(s, org, key) && FindCurrent(s.offers, l, 0) < |s.offers| && settlement.Settled?
  }

  function PurchaseOf(listing: Listing, org: string, l: nat, version: nat, key: Option<string>, now: int): Purchase {
    var fee := Cents(listing.price * FEE_RATE);
    Purchase(org, l, version, Paid, listing.price, fee, listing.price - fee, listing.currency, key, now)
  }

  function GrantOf(listing: Listing, org: string, l: nat, version: nat, p: nat, now: int): Entitlement {
    var term := Term(listing.cadence);
    Entitlement(org, l, listing.strategy, version, listing.access, Active, p, now,
                if term.Some? then Some(now + term.value) else None)
  }

  // ----- the life of an entitlement -----

  /** The refund's loop: what the purchase granted is revoked, unless it has already ended. */
  function RevokedBy(es: seq<Entitlement>, org: string, p: nat): (r: seq<Entitlement>)
    ensures |r| == |es|
    ensures forall i :: 0 <= i < |es| ==>
              r[i] == if es[i].org == org && es[i].purchase == p && es[i].status.Active? then es[i].(status := Revoked) else es[i]
  {
    seq(|es|, i requires 0 <= i < |es| =>
      if es[i].org == org && es[i].purchase == p && es[i].status.Active? then es[i].(status := Revoked) else es[i])
  }

  predicate Due(e: Entitlement, now: int) {
    e.status.Active? && e.validUntil.Some? && e.validUntil.value <= now
  }

  function ExpiredAt(es: seq<Entitlement>, now: int): (r: seq<Entitlement>)
    ensures |r| == |es|
    ensures forall i :: 0 <= i < |es| ==> r[i] == if Due(es[i], now) then es[i].(status := Expired) else es[i]
  {
    seq(|es|, i requires 0 <= i < |es| => if Due(es[i], now) then es[i].(status := Expired) else es[i])
  }

  function DueCount(es: seq<Entitlement>, now: int, n: nat): nat
    requires n <= |es|
  {
    if n == 0 then 0 else DueCount(es, now, n - 1) + if Due(es[n - 1], now) then 1 else 0
  }

  predicate MayAdvance(s: Market, e: nat) {
    && e < |s.entitlements| && s.entitlements[e].access.Rolling? && s.entitlements[e].status.Active?
    && FindCurrent(s.offers, s.entitlements[e].listing, 0) < |s.offers|
  }

  function Advanced(s: Market, e: nat): Entitlement
    requires MayAdvance(s, e)
  {
    s.entitlements[e].(version := s.offers[FindCurrent(s.offers, s.entitlements[e].listing, 0)].version)
  }

  predicate MayRefund(s: Market, org: string, p: nat, accepted: bool) {
    p < |s.purchases| && s.purchases[p].org == org && s.purchases[p].status.Paid? && accepted
  }

  // ----- steps -----

  /** The state after a request; a request that is refused changes nothing. */
  function Next(s: Market, e: Event): Market {
    match e
    case NewStrategy(org) => s.(strategies := s.strategies + [org])
    case NewVersion(strategy) => if strategy < |s.strategies| then s.(versions := s.versions + [Version(strategy, Draft)]) else s
    case Publish(v) => if v < |s.versions| then s.(versions := s.versions[v := s.versions[v].(status := Published)]) else s
    case NewListing(l) =>
      if l.strategy < |s.strategies| && s.strategies[l.strategy] == l.org then s.(listings := s.listings + [l.(onSale := false)]) else s
    case SetOnSale(l, onSale) => if l < |s.listings| then s.(listings := s.listings[l := s.listings[l].(onSale := onSale)]) else s
    case OfferVersion(org, l, v, makeCurrent, evidence) =>
      if MayOffer(s, org, l, v, evidence) then s.(offers := Offered(s.offers, l, v, makeCurrent, evidence)) else s
    case Buy(org, l, key, settlement, now) =>
      if Buys(s, org, l, key, settlement) then
        var v := s.offers[FindCurrent(s.offers, l, 0)].version;
        s.(purchases := s.purchases + [PurchaseOf(s.listings[l], org, l, v, key, now)],
           entitlements := s.entitlements + [GrantOf(s.listings[l], org, l, v, |s.purchases|, now)])
      else s
    case Refund(org, p, accepted) =>
      if MayRefund(s, org, p, accepted) then
        s.(purchases := s.purchases[p := s.purchases[p].(status := Refunded)], entitlements := RevokedBy(s.entitlements, org, p))
      else s
    case Advance(k) => if MayAdvance(s, k) then s.(entitlements := s.entitlements[k := Advanced(s, k)]) else s
    case Revoke(k) => if k < |s.entitlements| then s.(entitlements := s.entitlements[k := s.entitlements[k].(status := Revoked)]) else s
    case ExpireDue(now) => s.(entitlements := ExpiredAt(s.entitlements, now))
  }

  function After(es: seq<Event>, n: nat): Market
    requires n <= |es|
  {
    if n == 0 then EMPTY else Next(After(es, n - 1), es[n - 1])
  }

  // ----- what every run keeps -----

  /** A published version of the listing's strategy. */
  ghost predicate Sells(s: Market, l: nat, v: nat) {
    l < |s.listings| && v < |s.versions| && s.versions[v].status.Published? && s.versions[v].strategy == s.listings[l].strategy
  }

  ghost predicate GoodOffers(s: Market) {
    forall i :: 0 <= i < |s.offers| ==>
      Sells(s, s.offers[i].listing, s.offers[i].version) && (s.offers[i].evidence.Some? ==> s.offers[i].evidence.value == s.offers[i].version)
  }

  ghost predicate OneCurrent(offers: seq<Offer>) {
    forall i, j :: 0 <= i < j < |offers| && offers[i].listing == offers[j].listing ==> !(offers[i].current && offers[j].current)
  }

  ghost predicate OneOfferEach(offers: seq<Offer>) {
    forall i, j :: 0 <= i < j < |offers| && offers[i].listing == offers[j].listing ==> offers[i].version != offers[j].version
  }

  /** The fee is a fifth of the amount, to the nearest cent. */
  predicate NearestFee(amount: real, fee: real) {
    -0.005 <= fee - amount * FEE_RATE <= 0.005
  }

  /** The ledger adds up, and a purchase on it was settled. */
  ghost predicate GoodPurchase(p: Purchase) {
    p.amount == p.fee + p.net && NearestFee(p.amount, p.fee) && !p.status.Pending?
  }

  ghost predicate GoodPurchases(ps: seq<Purchase>) {
    && (forall i :: 0 <= i < |ps| ==> GoodPurchase(ps[i]))
    && (forall i, j :: 0 <= i < j < |ps| && ps[i].org == ps[j].org && Keyed(ps[i].key) ==> ps[i].key != ps[j].key)
  }

  /** Each purchase granted exactly one entitlement, the one with its number, to its buyer. */
  ghost predicate Paired(s: Market) {
    && |s.entitlements| == |s.purchases|
    && forall i :: 0 <= i < |s.entitlements| ==>
         && s.entitlements[i].purchase == i && s.entitlements[i].org == s.purchases[i].org
         && s.entitlements[i].listing == s.purchases[i].listing
         && (s.purchases[i].status.Refunded? ==> !s.entitlements[i].status.Active?)
  }

  ghost predicate GoodEntitlements(s: Market) {
    forall i :: 0 <= i < |s.entitlements| ==>
      && Sells(s, s.entitlements[i].listing, s.entitlements[i].version)
      && s.entitlements[i].strategy == s.listings[s.entitlements[i].listing].strategy
  }

  ghost predicate Good(s: Market) {
    GoodOffers(s) && OneCurrent(s.offers) && OneOfferEach(s.offers) && GoodPurchases(s.purchases) && Paired(s) && GoodEntitlements(s)
  }

  /** Nothing on sale is ever taken away: listings keep their strategy and versions stay published. */
  lemma StillSells(s: Market, e: Event, l: nat, v: nat)
    requires Sells(s, l, v)
    ensures Sells(Next(s, e), l, v) && Next(s, e).listings[l].strategy == s.listings[l].strategy
  {
  }

  lemma OfferedOnce(offers: seq<Offer>, l: nat, v: nat, makeCurrent: bool, evidence: Option<nat>)
    requires OneCurrent(offers) && OneOfferEach(offers)
    ensures OneCurrent(Offered(offers, l, v, makeCurrent, evidence)) && OneOfferEach(Offered(offers, l, v, makeCurrent, evidence))
  {
  }

  /** Offering adds or updates the one offer of this version; all others keep what they offer. */
  lemma OfferedWhat(offers: seq<Offer>, l: nat, v: nat, makeCurrent: bool, evidence: Option<nat>)
    ensures forall o :: o in Offered(offers, l, v, makeCurrent, evidence) ==>
              (o.listing == l && o.version == v && o.evidence == evidence)
              || exists i :: 0 <= i < |offers| && offers[i].(current := o.current) == o
  {
    var after := Offered(offers, l, v, makeCurrent, evidence);
    forall i | 0 <= i < |after|
      ensures (after[i].listing == l && after[i].version == v && after[i].evidence == evidence)
              || exists k :: 0 <= k < |offers| && offers[k].(current := after[i].current) == after[i]
    {
      if i < |offers| && i != FindOffer(offers, l, v, 0) {
        assert offers[i].(current := after[i].current) == after[i];
      }
    }
  }

  lemma StepGoodOffers(s: Market, e: Event)
    requires GoodOffers(s)
    ensures GoodOffers(Next(s, e))
  {
    var t := Next(s, e);
    if e.OfferVersion? && MayOffer(s, e.org, e.to, e.offered, e.evidence) {
      OfferedWhat(s.offers, e.to, e.offered, e.makeCurrent, e.evidence);
      forall i | 0 <= i < |t.offers|
        ensures Sells(t, t.offers[i].listing, t.offers[i].version) && (t.offers[i].evidence.Some? ==> t.offers[i].evidence.value == t.offers[i].version)
      {
        assert t.offers[i] in t.offers;
      }
    } else {
      assert t.offers == s.offers;
      forall i | 0 <= i < |s.offers| ensures Sells(t, s.offers[i].listing, s.offers[i].version) {
        StillSells(s, e, s.offers[i].listing, s.offers[i].version);
      }
    }
  }

  lemma StepOneCurrent(s: Market, e: Event)
    requires OneCurrent(s.offers) && OneOfferEach(s.offers)
    ensures OneCurrent(Next(s, e).offers) && OneOfferEach(Next(s, e).offers)
  {
    if e.OfferVersion? {
      OfferedOnce(s.offers, e.to, e.offered, e.makeCurrent, e.evidence);
    }
  }

  lemma PurchasedIsRetry(s: Market, org: string, key: Option<string>)
    requires Paired(s) && Keyed(key) && FindPurchase(s.purchases, org, key, 0) < |s.purchases|
    ensures Retry(s, org, key)
  {
    var p := FindPurchase(s.purchases, org, key, 0);
    assert s.entitlements[p].org == org && s.entitlements[p].purchase == p;
  }

  lemma FeeIsNearest(amount: real)
    ensures NearestFee(amount, Cents(amount * FEE_RATE))
  {
    var x := amount * FEE_RATE * 100.0;
    assert x.Floor as real <= x < x.Floor as real + 1.0;
    assert -0.5 <= HalfEven(x) as real - x <= 0.5;
  }

  lemma NewPurchaseGood(listing: Listing, org: string, l: nat, version: nat, key: Option<string>, now: int)
    ensures GoodPurchase(PurchaseOf(listing, org, l, version, key, now))
  {
    FeeIsNearest(listing.price);
  }

  lemma StepPurchases(s: Market, e: Event)
    requires GoodPurchases(s.purchases) && Paired(s)
    ensures GoodPurchases(Next(s, e).purchases)
  {
    if e.Buy? && Keyed(e.key) && FindPurchase(s.purchases, e.org, e.key, 0) < |s.purchases| {
      PurchasedIsRetry(s, e.org, e.key);
    }
    if e.Buy? && Buys(s, e.org, e.what, e.key, e.settlement) {
      NewPurchaseGood(s.listings[e.what], e.org, e.what, s.offers[FindCurrent(s.offers, e.what, 0)].version, e.key, e.now);
    }
  }

  lemma StepPaired(s: Market, e: Event)
    requires Paired(s)
    ensures Paired(Next(s, e))
  {
  }

  lemma StepEntitlements(s: Market, e: Event)
    requires GoodOffers(s) && GoodEntitlements(s)
    ensures GoodEntitlements(Next(s, e))
  {
    var t := Next(s, e);
    forall l: nat, v: nat | Sells(s, l, v) ensures Sells(t, l, v) && t.listings[l].strategy == s.listings[l].strategy {
      StillSells(s, e, l, v);
    }
  }

  /** Every run: at most one version per listing is current; every offer and every entitlement is a
      published version of the listing's own strategy, with evidence from that very version or none; each
      purchase was settled, adds up with a fee of a fifth to the nearest cent, is the only one under its
      key, and granted exactly one entitlement;
      and no entitlement of a refunded purchase is active. */
  lemma {:induction false} EveryRunGood(es: seq<Event>, n: nat)
    requires n <= |es|
    ensures Good(After(es, n))
    decreases n
  {
    if n > 0 {
      EveryRunGood(es, n - 1);
      var s := After(es, n - 1);
      StepGoodOffers(s, es[n - 1]);
      StepOneCurrent(s, es[n - 1]);
      StepPurchases(s, es[n - 1]);
      StepPaired(s, es[n - 1]);
      StepEntitlements(s, es[n - 1]);
    }
  }

  // ----- what never changes again -----

  /** From one step to the next an entitlement keeps its holder, its origin and its end; once inactive it
      stays so; and its version moves only when it is rolling, active and advanced, to a current version. */
  lemma StepKeepsEntitlement(s: Market, e: Event, k: nat)
    requires k < |s.entitlements|
    ensures k < |Next(s, e).entitlements|
    ensures var was, now := s.entitlements[k], Next(s, e).entitlements[k];
            && now == was.(version := now.version, status := now.status)
            && (!was.status.Active? ==> !now.status.Active?)
            && (now.version != was.version ==>
                  && e == Advance(k) && was.access.Rolling? && was.status.Active?
                  && exists i :: 0 <= i < |s.offers| && s.offers[i] == Offer(was.listing, now.version, true, s.offers[i].evidence))
  {
    if e == Advance(k) && MayAdvance(s, k) {
      var i := FindCurrent(s.offers, s.entitlements[k].listing, 0);
      assert s.offers[i] == Offer(s.entitlements[k].listing, s.offers[i].version, true, s.offers[i].evidence);
    }
  }

  /** What one entitlement can turn into: it keeps its holder, its origin and its term; an inactive one
      stays inactive, and a pinned one keeps its version. */
  predicate Follows(was: Entitlement, now: Entitlement) {
    && now == was.(version := now.version, status := now.status)
    && (!was.status.Active? ==> !now.status.Active?) && (was.access.Pinned? ==> now.version == was.version)
  }

  lemma StepFollows(s: Market, e: Event, k: nat)
    requires k < |s.entitlements|
    ensures k < |Next(s, e).entitlements| && Follows(s.entitlements[k], Next(s, e).entitlements[k])
  {
    StepKeepsEntitlement(s, e, k);
  }

  /** Over any run: an inactive entitlement never becomes active again, and a pinned one always grants the
      version it was bought for. */
  lemma {:induction false} EntitlementsOverRuns(es: seq<Event>, m: nat, n: nat, k: nat)
    requires m <= n <= |es| && k < |After(es, m).entitlements|
    ensures k < |After(es, n).entitlements| && Follows(After(es, m).entitlements[k], After(es, n).entitlements[k])
    decreases n
  {
    if m < n {
      EntitlementsOverRuns(es, m, n - 1, k);
      StepFollows(After(es, n - 1), es[n - 1], k);
    }
  }

  predicate Settles(was: Purchase, now: Purchase) {
    now == was.(status := now.status) && (was.status.Refunded? ==> now.status.Refunded?)
  }

  lemma StepSettles(s: Market, e: Event, p: nat)
    requires p < |s.purchases|
    ensures p < |Next(s, e).purchases| && Settles(s.purchases[p], Next(s, e).purchases[p])
  {
  }

  /** A purchase keeps all but its status, and a refund is final. */
  lemma {:induction false} PurchasesOverRuns(es: seq<Event>, m: nat, n: nat, p: nat)
    requires m <= n <= |es| && p < |After(es, m).purchases|
    ensures p < |After(es, n).purchases| && Settles(After(es, m).purchases[p], After(es, n).purchases[p])
    decreases n
  {
    if m < n {
      PurchasesOverRuns(es, m, n - 1, p);
      StepSettles(After(es, n - 1), es[n - 1], p);
    }
  }

  /** After a refund the buyer can never run the strategy on that purchase again. */
  lemma RefundIsFinal(es: seq<Event>, m: nat, n: nat, p: nat)
    requires m <= n <= |es| && p < |After(es, m).purchases| && After(es, m).purchases[p].status.Refunded?
    ensures p < |After(es, n).entitlements|
    ensures After(es, n).entitlements[p].purchase == p && !After(es, n).entitlements[p].status.Active?
  {
    PurchasesOverRuns(es, m, n, p);
    EveryRunGood(es, n);
  }

  /** Repeating a keyed purchase request, whatever happened in between, buys nothing twice. */
  lemma RetryBuysNothing(es: seq<Event>, n: nat, org: string, l: nat, key: Option<string>, settlement: Settlement, now: int)
    requires n <= |es| && Keyed(key)
    requires exists p :: 0 <= p < |After(es, n).purchases| && After(es, n).purchases[p].org == org && After(es, n).purchases[p].key == key
    ensures Next(After(es, n), Buy(org, l, key, settlement, now)) == After(es, n)
  {
    EveryRunGood(es, n);
    PurchasedIsRetry(After(es, n), org, key);
  }

  // ----- what may be run -----

  predicate Live(e: Entitlement, now: int) {
    e.status.Active? && e.validFrom <= now && !(e.validUntil.Some? && e.validUntil.value <= now)
  }

  datatype Basis = Owner | ByEntitlement(id: nat)

  datatype Grant = Grant(version: nat, strategy: nat, basis: Basis)

  /** The row the query returned: one of the organization's entitlements to the version, or none exists. */
  predicate FirstFor(s: Market, org: string, v: nat, row: Option<nat>) {
    match row
    case Some(k) => k < |s.entitlements| && s.entitlements[k].org == org && s.entitlements[k].version == v
    case None => forall k :: 0 <= k < |s.entitlements| ==> !(s.entitlements[k].org == org && s.entitlements[k].version == v)
  }

  /** `resolve_version` for a named version; None where the source raises. */
  function ResolveVersion(s: Market, org: string, v: nat, row: Option<nat>, now: int): Option<Grant>
    requires FirstFor(s, org, v, row)
  {
    if v >= |s.versions| || s.versions[v].strategy >= |s.strategies| then None
    else
      var strategy := s.versions[v].strategy;
      if s.strategies[strategy] == org then
        if s.versions[v].status.Draft? then None else Some(Grant(v, strategy, Owner))
      else if row.None? || !Live(s.entitlements[row.value], now) then None
      else Some(Grant(v, strategy, ByEntitlement(row.value)))
  }

  /** The newest of the organization's entitlements to the strategy, below `n`. */
  function Newest(es: seq<Entitlement>, org: string, strategy: nat, n: nat): (k: Option<nat>)
    requires n <= |es|
    ensures k.Some? ==> k.value < n && es[k.value].org == org && es[k.value].strategy == strategy
  {
    if n == 0 then None
    else if es[n - 1].org == org && es[n - 1].strategy == strategy then Some(n - 1)
    else Newest(es, org, strategy, n - 1)
  }

  /** The newest published version of the strategy, below `n`. */
  function NewestPublished(vs: seq<Version>, strategy: nat, n: nat): (v: Option<nat>)
    requires n <= |vs|
    ensures v.Some? ==> v.value < n && vs[v.value].strategy == strategy && vs[v.value].status.Published?
  {
    if n == 0 then None
    else if vs[n - 1].strategy == strategy && vs[n - 1].status.Published? then Some(n - 1)
    else NewestPublished(vs, strategy, n - 1)
  }

  /** `resolve_version` for a named strategy. */
  function ResolveStrategy(s: Market, org: string, strategy: nat, now: int): Option<Grant> {
    if strategy >= |s.strategies| then None
    else if s.strategies[strategy] == org then
      var v := NewestPublished(s.versions, strategy, |s.versions|);
      if v.None? then None else Some(Grant(v.value, strategy, Owner))
    else
      var k := Newest(s.entitlements, org, strategy, |s.entitlements|);
      if k.None? || !Live(s.entitlements[k.value], now) then None
      else Some(Grant(s.entitlements[k.value].version, strategy, ByEntitlement(k.value)))
  }

  /** What a grant is good for, in any state a run can reach: one concrete version, published, of the
      strategy named, and either the organization owns that strategy or it holds, right now, a live
      entitlement to exactly this version from a purchase of its own that was not refunded. */
  ghost predicate Earned(s: Market, org: string, g: Grant, now: int) {
    && g.version < |s.versions| && s.versions[g.version].status.Published? && s.versions[g.version].strategy == g.strategy
    && g.strategy < |s.strategies|
    && match g.basis
       case Owner => s.strategies[g.strategy] == org
       case ByEntitlement(k) =>
         && k < |s.entitlements| && s.entitlements[k].org == org && s.entitlements[k].version == g.version && Live(s.entitlements[k], now)
         && k < |s.purchases| && s.purchases[k].org == org && s.purchases[k].status.Paid?
  }

  lemma ResolveIsSound(es: seq<Event>, n: nat, org: string, v: nat, strategy: nat, row: Option<nat>, now: int)
    requires n <= |es| && FirstFor(After(es, n), org, v, row)
    ensures var g := ResolveVersion(After(es, n), org, v, row, now);
            g.Some? ==> g.value.version == v && Earned(After(es, n), org, g.value, now)
    ensures var g := ResolveStrategy(After(es, n), org, strategy, now);
            g.Some? ==> g.value.strategy == strategy && Earned(After(es, n), org, g.value, now)
  {
    EveryRunGood(es, n);
    var s := After(es, n);
    if row.Some? {
      assert Sells(s, s.entitlements[row.value].listing, s.entitlements[row.value].version);
    }
    var k := Newest(s.entitlements, org, strategy, |s.entitlements|);
    if k.Some? {
      assert Sells(s, s.entitlements[k.value].listing, s.entitlements[k.value].version);
    }
  }

  /** Right now: granted already, not ended, not expired or revoked. */
  predicate RightNow(e: Entitlement, now: int) {
    e.status == Active && e.validFrom <= now && match e.validUntil case Some(end) => now < end case None => true
  }

  /** When a named version is granted: to its owner unless it is a draft; to anybody else exactly when the
      row the query found is a licence good right now. */
  lemma ResolveVersionExactly(s: Market, org: string, v: nat, row: Option<nat>, now: int)
    requires FirstFor(s, org, v, row)
    ensures var g := ResolveVersion(s, org, v, row, now);
            if v >= |s.versions| || s.versions[v].strategy >= |s.strategies| then g == None
            else if s.strategies[s.versions[v].strategy] == org then
              g == if s.versions[v].status == Published then Some(Grant(v, s.versions[v].strategy, Owner)) else None
            else
              g == if row.Some? && RightNow(s.entitlements[row.value], now)
                   then Some(Grant(v, s.versions[v].strategy, ByEntitlement(row.value))) else None
  {
  }

  lemma {:induction false} NewestExactly(es: seq<Entitlement>, org: string, strategy: nat, n: nat, k: nat)
    requires k < n <= |es| && es[k].org == org && es[k].strategy == strategy
    requires forall j :: k < j < n ==> !(es[j].org == org && es[j].strategy == strategy)
    ensures Newest(es, org, strategy, n) == Some(k)
    decreases n
  {
    if k < n - 1 {
      NewestExactly(es, org, strategy, n - 1, k);
    }
  }

  lemma {:induction false} NewestPublishedExactly(vs: seq<Version>, strategy: nat, n: nat, v: nat)
    requires v < n <= |vs| && vs[v].strategy == strategy && vs[v].status == Published
    requires forall j :: v < j < n ==> !(vs[j].strategy == strategy && vs[j].status == Published)
    ensures NewestPublished(vs, strategy, n) == Some(v)
    decreases n
  {
    if v < n - 1 {
      NewestPublishedExactly(vs, strategy, n - 1, v);
    }
  }

  /** A strategy named alone resolves for its owner to its newest published version... */
  lemma OwnerResolves(s: Market, org: string, v: nat, now: int)
    requires v < |s.versions| && s.versions[v].strategy < |s.strategies| && s.strategies[s.versions[v].strategy] == org
    requires s.versions[v].status == Published
    requires forall j :: v < j < |s.versions| ==> !(s.versions[j].strategy == s.versions[v].strategy && s.versions[j].status == Published)
    ensures ResolveStrategy(s, org, s.versions[v].strategy, now) == Some(Grant(v, s.versions[v].strategy, Owner))
  {
    NewestPublishedExactly(s.versions, s.versions[v].strategy, |s.versions|, v);
  }

  /** ... and for anybody else by the newest of its licences to it, if that is good right now. */
  lemma LicenceResolves(s: Market, org: string, k: nat, now: int)
    requires k < |s.entitlements| && s.entitlements[k].org == org && s.entitlements[k].strategy < |s.strategies|
    requires s.strategies[s.entitlements[k].strategy] != org
    requires forall j :: k < j < |s.entitlements| ==> !(s.entitlements[j].org == org && s.entitlements[j].strategy == s.entitlements[k].strategy)
    ensures var e := s.entitlements[k];
            ResolveStrategy(s, org, e.strategy, now)
            == if RightNow(e, now) then Some(Grant(e.version, e.strategy, ByEntitlement(k))) else None
  {
    NewestExactly(s.entitlements, org, s.entitlements[k].strategy, |s.entitlements|, k);
  }

  // ----- payouts -----

  datatype Payout = Payout(gross: real, fees: real, count: nat)

  predicate Counts(s: Market, org: string, p: Purchase, from: int, to: int) {
    p.listing < |s.listings| && s.listings[p.listing].org == org && p.status.Paid? && from <= p.at < to
  }

  /** What the organization is owed for the sales in `[from, to)`, over the first `n` purchases. */
  function Owed(s: Market, org: string, from: int, to: int, n: nat): Payout
    requires n <= |s.purchases|
  {
    if n == 0 then Payout(0.0, 0.0, 0)
    else
      var sum, p := Owed(s, org, from, to, n - 1), s.purchases[n - 1];
      if Counts(s, org, p, from, to) then Added(sum, SaleOf(p)) else sum
  }

  function SaleOf(p: Purchase): Payout {
    Payout(p.amount, p.fee, 1)
  }

  function Added(a: Payout, b: Payout): Payout {
    Payout(a.gross + b.gross, a.fees + b.fees, a.count + b.count)
  }

  /** Payouts over adjacent periods add up to the payout over their union: no sale is paid twice or missed. */
  lemma {:induction false} PayoutsAddUp(s: Market, org: string, from: int, mid: int, to: int, n: nat)
    requires n <= |s.purchases| && from <= mid <= to
    ensures Added(Owed(s, org, from, mid, n), Owed(s, org, mid, to, n)) == Owed(s, org, from, to, n)
    decreases n
  {
    if n > 0 {
      PayoutsAddUp(s, org, from, mid, to, n - 1);
    }
  }

  /** `t` is `s` with purchase `p` marked as refunded, as far as payouts go. */
  ghost predicate Unsold(s: Market, t: Market, p: nat) {
    && p < |s.purchases| && t.listings == s.listings
    && t.purchases == s.purchases[p := s.purchases[p].(status := Refunded)]
  }

  lemma UnsoldSale(s: Market, t: Market, p: nat, org: string, from: int, to: int, q: nat)
    requires q < |s.purchases| && Unsold(s, t, p)
    ensures q < |t.purchases|
    ensures q == p ==> !Counts(t, org, t.purchases[q], from, to)
    ensures q != p ==> t.purchases[q] == s.purchases[q]
                       && (Counts(t, org, t.purchases[q], from, to) <==> Counts(s, org, s.purchases[q], from, to))
  {
  }

  const NOTHING := Payout(0.0, 0.0, 0)

  /** One more sale, in both payouts or in neither, or in the first alone. */
  lemma AddedSwaps(whole: Payout, left: Payout, taken: Payout, sale: Payout)
    requires whole == Added(left, taken)
    ensures Added(whole, sale) == Added(Added(left, sale), taken)
    ensures taken == NOTHING ==> Added(whole, sale) == Added(left, sale)
  {
  }

  /** What the sale with number `p` is worth, if it is among the first `n`. */
  function Worth(s: Market, p: nat, org: string, from: int, to: int, n: nat): Payout
    requires p < |s.purchases|
  {
    if p < n && Counts(s, org, s.purchases[p], from, to) then SaleOf(s.purchases[p]) else NOTHING
  }

  lemma UnsoldOneMore(s: Market, t: Market, p: nat, org: string, from: int, to: int, n: nat, whole: Payout, left: Payout, taken: Payout)
    requires 0 < n <= |s.purchases| && Unsold(s, t, p)
    requires taken == Worth(s, p, org, from, to, n - 1) && whole == Added(left, taken)
    ensures var sale, unsold := s.purchases[n - 1], t.purchases[n - 1];
            (if Counts(s, org, sale, from, to) then Added(whole, SaleOf(sale)) else whole)
            == Added(if Counts(t, org, unsold, from, to) then Added(left, SaleOf(unsold)) else left, Worth(s, p, org, from, to, n))
  {
    UnsoldSale(s, t, p, org, from, to, n - 1);
    AddedSwaps(whole, left, taken, SaleOf(s.purchases[n - 1]));
  }

  lemma {:induction false} UnsoldLeavesPayout(s: Market, t: Market, p: nat, org: string, from: int, to: int, n: nat)
    requires n <= |s.purchases| && Unsold(s, t, p)
    ensures Owed(s, org, from, to, n) == Added(Owed(t, org, from, to, n), Worth(s, p, org, from, to, n))
    decreases n
  {
    if n > 0 {
      UnsoldLeavesPayout(s, t, p, org, from, to, n - 1);
      UnsoldOneMore(s, t, p, org, from, to, n, Owed(s, org, from, to, n - 1), Owed(t, org, from, to, n - 1),
                    Worth(s, p, org, from, to, n - 1));
    }
  }

  /** A refund takes exactly its own sale out of the payout of its period, and out of no other. */
  lemma RefundLeavesPayout(s: Market, buyer: string, p: nat, org: string, from: int, to: int, n: nat)
    requires n <= |s.purchases| && MayRefund(s, buyer, p, true)
    ensures var t := Next(s, Refund(buyer, p, true));
            Owed(s, org, from, to, n) == Added(Owed(t, org, from, to, n), Worth(s, p, org, from, to, n))
  {
    UnsoldLeavesPayout(s, Next(s, Refund(buyer, p, true)), p, org, from, to, n);
  }

  // ----- a payout recorded for a closed period -----

  /** Every sale between step `m` and step `n` is made at `to` or later, as all are, on a clock that does
      not go back, once a period that ends at `to` is over. */
  ghost predicate ClosedAt(es: seq<Event>, m: nat, n: nat, to: int)
    requires n <= |es|
  {
    forall i :: m <= i < n && es[i].Buy? ==> to <= es[i].now
  }

  /** The sales of `s` are the first of `t`'s, by the same organizations' listings. */
  ghost predicate SameSales(s: Market, t: Market) {
    && s.purchases <= t.purchases
    && forall p :: 0 <= p < |s.purchases| ==> SameSeller(s, t, s.purchases[p].listing)
  }

  predicate SameSeller(s: Market, t: Market, l: nat) {
    l < |s.listings| && l < |t.listings| && t.listings[l].org == s.listings[l].org
  }

  lemma {:induction false} SameSalesOwed(s: Market, t: Market, org: string, from: int, to: int, n: nat)
    requires SameSales(s, t) && n <= |s.purchases|
    ensures Owed(t, org, from, to, n) == Owed(s, org, from, to, n)
    decreases n
  {
    if n > 0 {
      SameSalesOwed(s, t, org, from, to, n - 1);
      assert t.purchases[n - 1] == s.purchases[n - 1] && SameSeller(s, t, s.purchases[n - 1].listing);
    }
  }

  lemma SaleIsListed(s: Market, p: nat)
    requires Good(s) && p < |s.purchases|
    ensures s.purchases[p].listing < |s.listings|
  {
    assert s.entitlements[p].listing == s.purchases[p].listing;
  }

  lemma StepListings(s: Market, e: Event, l: nat)
    requires l < |s.listings|
    ensures SameSeller(s, Next(s, e), l)
  {
  }

  /** What one event takes out of the payout of a period: the sale it refunds, if it is of that period. */
  function TakenBy(s: Market, e: Event, org: string, from: int, to: int): Payout {
    if e.Refund? && MayRefund(s, e.org, e.purchase, e.accepted) then Worth(s, e.purchase, org, from, to, |s.purchases|)
    else NOTHING
  }

  lemma StepSells(s: Market, e: Event)
    requires TakesNothing(s, e)
    ensures s.purchases <= Next(s, e).purchases && |Next(s, e).purchases| <= |s.purchases| + 1
    ensures |Next(s, e).purchases| > |s.purchases| ==> e.Buy? && Next(s, e).purchases[|s.purchases|].at == e.now
  {
  }

  predicate TakesNothing(s: Market, e: Event) {
    !(e.Refund? && MayRefund(s, e.org, e.purchase, e.accepted))
  }

  lemma StepKeepsSales(s: Market, e: Event)
    requires Good(s) && TakesNothing(s, e)
    ensures SameSales(s, Next(s, e))
  {
    StepSells(s, e);
    forall p | 0 <= p < |s.purchases| ensures SameSeller(s, Next(s, e), s.purchases[p].listing) {
      SaleIsListed(s, p);
      StepListings(s, e, s.purchases[p].listing);
    }
  }

  /** A sale made after the period adds nothing to its payout. */
  lemma LateSale(t: Market, n: nat, org: string, from: int, to: int)
    requires n <= |t.purchases| <= n + 1 && (|t.purchases| > n ==> to <= t.purchases[n].at)
    ensures Owed(t, org, from, to, |t.purchases|) == Owed(t, org, from, to, n)
  {
  }

  lemma StepOwes(s: Market, e: Event, t: Market, org: string, from: int, to: int)
    requires Good(s) && t == Next(s, e) && TakesNothing(s, e) && (e.Buy? ==> to <= e.now)
    ensures Owed(t, org, from, to, |t.purchases|) == Owed(s, org, from, to, |s.purchases|)
  {
    StepKeepsSales(s, e);
    StepSells(s, e);
    SameSalesOwed(s, t, org, from, to, |s.purchases|);
    LateSale(t, |s.purchases|, org, from, to);
  }

  lemma StepRefunds(s: Market, e: Event, t: Market, org: string, from: int, to: int)
    requires Good(s) && t == Next(s, e) && !TakesNothing(s, e)
    ensures Owed(s, org, from, to, |s.purchases|) == Added(Owed(t, org, from, to, |t.purchases|), TakenBy(s, e, org, from, to))
  {
    RefundLeavesPayout(s, e.org, e.purchase, org, from, to, |s.purchases|);
  }

  lemma StepOwed(s: Market, e: Event, org: string, from: int, to: int)
    requires Good(s) && (e.Buy? ==> to <= e.now)
    ensures var t := Next(s, e);
            Owed(s, org, from, to, |s.purchases|) == Added(Owed(t, org, from, to, |t.purchases|), TakenBy(s, e, org, from, to))
  {
    if TakesNothing(s, e) {
      StepOwes(s, e, Next(s, e), org, from, to);
      AddedNothing(Owed(s, org, from, to, |s.purchases|));
    } else {
      StepRefunds(s, e, Next(s, e), org, from, to);
    }
  }

  lemma AddedNothing(a: Payout)
    ensures Added(a, NOTHING) == a
  {
  }

  lemma AddedAcross(first: Payout, between: Payout, now: Payout, earlier: Payout, last: Payout)
    requires first == Added(between, earlier) && between == Added(now, last)
    ensures first == Added(now, Added(earlier, last))
  {
  }

  /** What the refunds from step `m` to step `n` took out of the payout of a period. */
  function RefundedBetween(es: seq<Event>, m: nat, n: nat, org: string, from: int, to: int): Payout
    requires m <= n <= |es|
    decreases n
  {
    if n == m then NOTHING
    else Added(RefundedBetween(es, m, n - 1, org, from, to), TakenBy(After(es, n - 1), es[n - 1], org, from, to))
  }

  lemma PayoutNext(u: Market, e: Event, t: Market, first: Payout, between: Payout, org: string, from: int, to: int)
    requires Good(u) && t == Next(u, e) && (e.Buy? ==> to <= e.now)
    requires first == Added(Owed(u, org, from, to, |u.purchases|), between)
    ensures first == Added(Owed(t, org, from, to, |t.purchases|), Added(between, TakenBy(u, e, org, from, to)))
  {
    StepOwed(u, e, org, from, to);
    AddedAcross(first, Owed(u, org, from, to, |u.purchases|), Owed(t, org, from, to, |t.purchases|), between, TakenBy(u, e, org, from, to));
  }

  lemma PayoutAfter(es: seq<Event>, n: nat, first: Payout, between: Payout, org: string, from: int, to: int)
    requires 0 < n <= |es| && (es[n - 1].Buy? ==> to <= es[n - 1].now)
    requires first == Added(OwedAfter(es, n - 1, org, from, to), between)
    ensures first == Added(OwedAfter(es, n, org, from, to), Added(between, TakenBy(After(es, n - 1), es[n - 1], org, from, to)))
  {
    EveryRunGood(es, n - 1);
    PayoutNext(After(es, n - 1), es[n - 1], After(es, n), first, between, org, from, to);
  }

  function OwedAfter(es: seq<Event>, n: nat, org: string, from: int, to: int): Payout
    requires n <= |es|
  {
    Owed(After(es, n), org, from, to, |After(es, n).purchases|)
  }

  /** A payout recorded once its period is over stays right: recorded again after any further run, it
      differs exactly by the sales of the period that were refunded in between. */
  lemma {:induction false} ClosedPayoutStands(es: seq<Event>, m: nat, n: nat, org: string, from: int, to: int)
    requires m <= n <= |es| && ClosedAt(es, m, n, to)
    ensures OwedAfter(es, m, org, from, to)
         == Added(OwedAfter(es, n, org, from, to), RefundedBetween(es, m, n, org, from, to))
    decreases n
  {
    var first := OwedAfter(es, m, org, from, to);
    if m < n {
      ClosedPayoutStands(es, m, n - 1, org, from, to);
      PayoutAfter(es, n, first, RefundedBetween(es, m, n - 1, org, from, to), org, from, to);
    } else {
      AddedNothing(first);
    }
  }

  /** A sale is owed to the organization whose listing it is, in the period it falls into, and to no other. */
  lemma SaleReachesSeller(s: Market, buyer: string, l: nat, key: Option<string>, now: int, org: string, from: int, to: int)
    requires Good(s) && Buys(s, buyer, l, key, Settled)
    ensures var t := Next(s, Buy(buyer, l, key, Settled, now));
            var before, after := Owed(s, org, from, to, |s.purchases|), Owed(t, org, from, to, |t.purchases|);
            if org == s.listings[l].org && from <= now && now < to then
              && after.count == before.count + 1 && after.gross == before.gross + s.listings[l].price
              && NearestFee(s.listings[l].price, after.fees - before.fees)
            else after == before
  {
    var e := Buy(buyer, l, key, Settled, now);
    var t := Next(s, e);
    StepKeepsSales(s, e);
    SameSalesOwed(s, t, org, from, to, |s.purchases|);
    FeeIsNearest(s.listings[l].price);
    assert t.purchases[|s.purchases|] == PurchaseOf(s.listings[l], buyer, l, s.offers[FindCurrent(s.offers, l, 0)].version, key, now);
  }
}
