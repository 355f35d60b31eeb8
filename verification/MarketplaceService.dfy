/** The marketplace's requests as the service performs them: loops over rows that are changed in place. */
module MarketplaceService {
  import opened Wrappers
  import opened Marketplace

  // ----- what the requests promise, row by row -----

  /** The listing has this version on offer as its current one. */
  predicate OnOffer(offers: seq<Offer>, l: nat, version: nat) {
    exists i :: 0 <= i < |offers| && offers[i].listing == l && offers[i].current && offers[i].version == version
  }

  predicate HasCurrent(offers: seq<Offer>, l: nat) {
    exists i :: 0 <= i < |offers| && offers[i].listing == l && offers[i].current
  }

  /** The organization has bought under this key before, and been granted its entitlement. */
  predicate BoughtBefore(purchases: seq<Purchase>, entitlements: seq<Entitlement>, org: string, key: Option<string>, p: nat) {
    && p < |purchases| && purchases[p].org == org && purchases[p].key == key
    && exists k :: 0 <= k < |entitlements| && entitlements[k].org == org && entitlements[k].purchase == p
  }

  /** A monthly licence ends after 30 days, an annual one after 365, one bought once never. */
  predicate EndsRight(cadence: Cadence, from: int, until: Option<int>) {
    match cadence
    case Monthly => until == Some(from + 30 * 24 * 60 * 60)
    case Annual => until == Some(from + 365 * 24 * 60 * 60)
    case OneTime => until == None
  }

  predicate PurchaseColumns(p: Purchase, listing: Listing, org: string, l: nat, key: Option<string>, now: int) {
    && p.org == org && p.listing == l && p.status == Paid && p.key == key && p.at == now
    && p.amount == listing.price && p.currency == listing.currency
    && p.amount == p.fee + p.net && -0.005 <= p.fee - p.amount / 5.0 <= 0.005
  }

  predicate GrantColumns(e: Entitlement, listing: Listing, org: string, l: nat, version: nat, p: nat, now: int) {
    && e.org == org && e.listing == l && e.strategy == listing.strategy && e.version == version && e.access == listing.access
    && e.status == Active && e.purchase == p && e.validFrom == now && EndsRight(listing.cadence, now, e.validUntil)
  }

  lemma GrantIsRight(listing: Listing, org: string, l: nat, version: nat, p: nat, now: int)
    ensures GrantColumns(GrantOf(listing, org, l, version, p, now), listing, org, l, version, p, now)
  {
  }

  lemma PurchaseIsRight(listing: Listing, org: string, l: nat, version: nat, key: Option<string>, now: int)
    ensures PurchaseColumns(PurchaseOf(listing, org, l, version, key, now), listing, org, l, key, now)
    ensures PurchaseOf(listing, org, l, version, key, now).version == version
  {
    FeeIsNearest(listing.price);
  }

  /** Whose purchase succeeds: of a listing on sale, of somebody else's, either again under a key already
      used or with a current version and a settled charge. */
  ghost predicate MayHave(s: Market, org: string, l: nat, key: Option<string>, settlement: Settlement) {
    && l < |s.listings| && s.listings[l].onSale && s.listings[l].org != org
    && (Again(s, org, key) || (HasCurrent(s.offers, l) && settlement == Settled))
  }

  ghost predicate Again(s: Market, org: string, key: Option<string>) {
    key.Some? && key.value != "" && exists p: nat :: BoughtBefore(s.purchases, s.entitlements, org, key, p)
  }

  /** What a purchase leaves: one row and one entitlement more, column by column as promised, or nothing. */
  ghost predicate PurchaseHolds(s: Market, org: string, l: nat, key: Option<string>, settlement: Settlement, now: int,
                                bought: Option<(nat, nat)>, t: Market) {
    && (bought.Some? <==> MayHave(s, org, l, key, settlement))
    && (bought.None? || Again(s, org, key) ==> t == s)
    && (bought.Some? && !Again(s, org, key) ==>
          && bought == Some((|s.purchases|, |s.entitlements|))
          && |t.purchases| == |s.purchases| + 1 && |t.entitlements| == |s.entitlements| + 1
          && var p, e := t.purchases[|s.purchases|], t.entitlements[|s.entitlements|];
             && t == s.(purchases := s.purchases + [p], entitlements := s.entitlements + [e])
             && OnOffer(s.offers, l, p.version) && PurchaseColumns(p, s.listings[l], org, l, key, now)
             && GrantColumns(e, s.listings[l], org, l, p.version, |s.purchases|, now))
  }

  /** What a purchase had granted is revoked where it was active; nothing else changes. */
  ghost predicate AllRevoked(was: seq<Entitlement>, org: string, p: nat, es: seq<Entitlement>) {
    && |es| == |was|
    && forall i :: 0 <= i < |was| ==>
         es[i] == if was[i].org == org && was[i].purchase == p && was[i].status == Active then was[i].(status := Revoked) else was[i]
  }

  /** An active licence whose end is not in the future. */
  predicate Ended(e: Entitlement, now: int) {
    match e.validUntil
    case Some(end) => e.status == Active && end <= now
    case None => false
  }

  lemma {:induction false} DueCountExactly(es: seq<Entitlement>, now: int, n: nat)
    requires n <= |es|
    ensures DueCount(es, now, n) == |set i | 0 <= i < n && Ended(es[i], now)|
    decreases n
  {
    var ended := set i | 0 <= i < n && Ended(es[i], now);
    if n > 0 {
      DueCountExactly(es, now, n - 1);
      var before := set i | 0 <= i < n - 1 && Ended(es[i], now);
      assert ended == before + if Ended(es[n - 1], now) then {n - 1} else {};
    }
  }

  lemma CurrentExactly(offers: seq<Offer>, l: nat)
    ensures var i := FindCurrent(offers, l, 0);
            && (i < |offers| <==> HasCurrent(offers, l)) && (i < |offers| ==> OnOffer(offers, l, offers[i].version))
  {
  }

  lemma RetryExactly(s: Market, org: string, key: Option<string>)
    requires Good(s)
    ensures Retry(s, org, key) <==> Again(s, org, key)
  {
    if Keyed(key) {
      var p := FindPurchase(s.purchases, org, key, 0);
      if p < |s.purchases| {
        PurchasedIsRetry(s, org, key);
        var k := FindGranted(s.entitlements, org, p, 0);
        assert BoughtBefore(s.purchases, s.entitlements, org, key, p);
      }
    }
  }

  /** For any answer the service may give: right in every state a run can reach. */
  lemma PurchaseIsAsPromised(s: Market, org: string, l: nat, key: Option<string>, settlement: Settlement, now: int)
    requires Good(s)
    ensures Buys(s, org, l, key, settlement) ==>
              PurchaseHolds(s, org, l, key, settlement, now, Some((|s.purchases|, |s.entitlements|)), Next(s, Buy(org, l, key, settlement, now)))
    ensures !Buys(s, org, l, key, settlement) ==>
              Next(s, Buy(org, l, key, settlement, now)) == s
    ensures MayHave(s, org, l, key, settlement) <==> MayBuy(s, org, l) && (Retry(s, org, key) || Buys(s, org, l, key, settlement))
    ensures Retry(s, org, key) <==> Again(s, org, key)
  {
    RetryExactly(s, org, key);
    CurrentExactly(s.offers, l);
    if Buys(s, org, l, key, settlement) {
      var v := s.offers[FindCurrent(s.offers, l, 0)].version;
      PurchaseIsRight(s.listings[l], org, l, v, key, now);
      GrantIsRight(s.listings[l], org, l, v, |s.purchases|, now);
    }
  }

  /** After version `v` is offered under listing `l`: the offer is there with its evidence; made current it
      is the listing's only current one, and otherwise no flag changes; nothing else changes. */
  ghost predicate OffersHold(was: seq<Offer>, l: nat, v: nat, makeCurrent: bool, evidence: Option<nat>, offers: seq<Offer>) {
    && |was| <= |offers| <= |was| + 1
    && (|offers| > |was| ==> offers[|was|] == Offer(l, v, makeCurrent, evidence)
                             && forall i :: 0 <= i < |was| ==> !(was[i].listing == l && was[i].version == v))
    && (exists i :: 0 <= i < |offers| && IsOffer(offers[i], l, v, evidence) && (makeCurrent ==> offers[i].current))
    && forall i :: 0 <= i < |was| ==>
         && offers[i].listing == was[i].listing && offers[i].version == was[i].version
         && (was[i].listing != l ==> offers[i] == was[i])
         && (was[i].listing == l && was[i].version != v ==>
               offers[i].evidence == was[i].evidence && offers[i].current == (was[i].current && !makeCurrent))
         && (was[i].listing == l && was[i].version == v && !makeCurrent ==> offers[i].current == was[i].current)
  }

  predicate IsOffer(o: Offer, l: nat, v: nat, evidence: Option<nat>) {
    o.listing == l && o.version == v && o.evidence == evidence
  }

  lemma OfferedHolds(offers: seq<Offer>, l: nat, v: nat, makeCurrent: bool, evidence: Option<nat>)
    requires OneOfferEach(offers)
    ensures OffersHold(offers, l, v, makeCurrent, evidence, Offered(offers, l, v, makeCurrent, evidence))
  {
    var i := FindOffer(offers, l, v, 0);
    assert IsOffer(Offered(offers, l, v, makeCurrent, evidence)[i], l, v, evidence);
  }

  class Service {
    var strategies: seq<string>
    var versions: seq<Version>
    var listings: seq<Listing>
    var offers: seq<Offer>
    var purchases: seq<Purchase>
    var entitlements: seq<Entitlement>

    function State(): Market
      reads this
    {
      Market(strategies, versions, listings, offers, purchases, entitlements)
    }

    constructor ()
      ensures State() == EMPTY
    {
      strategies, versions, listings, offers, purchases, entitlements := [], [], [], [], [], [];
    }

    /** `offer_version`; false where it raises. */
    method OfferStrategyVersion(org: string, l: nat, v: nat, makeCurrent: bool, evidence: Option<nat>) returns (ok: bool)
      modifies this`offers
      ensures State() == Next(old(State()), OfferVersion(org, l, v, makeCurrent, evidence))
      ensures ok <==>
                && l < |listings| && listings[l].org == org && v < |versions| && versions[v].status == Published
                && versions[v].strategy == listings[l].strategy < |strategies| && strategies[listings[l].strategy] == org
                && (evidence == None || evidence == Some(v))
      ensures !ok ==> offers == old(offers)
      ensures ok && OneOfferEach(old(offers)) ==> OffersHold(old(offers), l, v, makeCurrent, evidence, offers)
    {
      if OneOfferEach(offers) {
        OfferedHolds(offers, l, v, makeCurrent, evidence);
      }
      ok := PutOffer(org, l, v, makeCurrent, evidence);
    }

    method PutOffer(org: string, l: nat, v: nat, makeCurrent: bool, evidence: Option<nat>) returns (ok: bool)
      modifies this`offers
      ensures ok <==> MayOffer(old(State()), org, l, v, evidence)
      ensures State() == Next(old(State()), OfferVersion(org, l, v, makeCurrent, evidence))
    {
      if l >= |listings| || listings[l].org != org || v >= |versions| || versions[v].strategy >= |strategies|
         || strategies[versions[v].strategy] != org {
        return false;
      }
      if versions[v].strategy != listings[l].strategy || !versions[v].status.Published?
         || (evidence.Some? && evidence.value != v) {
        return false;
      }
      var i := FindOffer(offers, l, v, 0);
      if i < |offers| {
        offers := offers[i := offers[i].(evidence := evidence)];
      } else {
        offers := offers + [Offer(l, v, makeCurrent, evidence)];
      }
      if makeCurrent {
        ghost var put := offers;
        for k := 0 to |offers|
          invariant |offers| == |put|
          invariant forall j :: 0 <= j < |put| ==> offers[j] == if j < k then MadeCurrent(put, l, i)[j] else put[j]
        {
          if offers[k].listing == l {
            offers := offers[k := offers[k].(current := k == i)];
          }
        }
      }
      return true;
    }

    /** `purchase`: the purchase and its entitlement, new or from the ledger; None where it raises. */
    method PurchaseListing(org: string, l: nat, key: Option<string>, settlement: Settlement, now: int)
      returns (bought: Option<(nat, nat)>)
      modifies this`purchases, this`entitlements
      ensures State() == Next(old(State()), Buy(org, l, key, settlement, now))
      ensures bought.Some? ==>
                && bought.value.0 < |purchases| && purchases[bought.value.0].org == org
                && bought.value.1 < |entitlements| && entitlements[bought.value.1].purchase == bought.value.0
                && (Keyed(key) ==> purchases[bought.value.0].key == key)
      ensures Good(old(State())) ==> PurchaseHolds(old(State()), org, l, key, settlement, now, bought, State())
    {
      if Good(State()) {
        PurchaseIsAsPromised(State(), org, l, key, settlement, now);
      }
      bought := BuyOrRetry(org, l, key, settlement, now);
    }

    method BuyOrRetry(org: string, l: nat, key: Option<string>, settlement: Settlement, now: int)
      returns (bought: Option<(nat, nat)>)
      modifies this`purchases, this`entitlements
      ensures State() == Next(old(State()), Buy(org, l, key, settlement, now))
      ensures bought.Some? <==> MayBuy(old(State()), org, l) && (Retry(old(State()), org, key) || Buys(old(State()), org, l, key, settlement))
      ensures Buys(old(State()), org, l, key, settlement) ==> bought == Some((|old(purchases)|, |old(entitlements)|))
      ensures bought.Some? ==>
                && bought.value.0 < |purchases| && purchases[bought.value.0].org == org
                && bought.value.1 < |entitlements| && entitlements[bought.value.1].purchase == bought.value.0
                && (Keyed(key) ==> purchases[bought.value.0].key == key)
    {
      if l >= |listings| || !listings[l].onSale || listings[l].org == org {
        return None;
      }
      if Keyed(key) {
        var p := FindPurchase(purchases, org, key, 0);
        if p < |purchases| {
          var k := FindGranted(entitlements, org, p, 0);
          if k < |entitlements| {
            return Some((p, k));
          }
        }
      }
      var i := FindCurrent(offers, l, 0);
      if i == |offers| {
        return None;
      }
      var listing, version := listings[l], offers[i].version;
      var fee := Cents(listing.price * FEE_RATE);
      if settlement.Declined? {
        return None;
      }
      ghost var before := purchases;
      var p := |purchases|;
      purchases := purchases + [Purchase(
        org, l, version, if settlement.Settled? then Paid else Pending, listing.price, fee, listing.price - fee,
        listing.currency, key, now)];
      if !settlement.Settled? {
        purchases := purchases[..p];    // the request raises, and its transaction is rolled back
        assert purchases == before;
        return None;
      }
      var term := Term(listing.cadence);
      entitlements := entitlements + [Entitlement(
        org, l, listing.strategy, version, listing.access, Active, p, now, if term.Some? then Some(now + term.value) else None)];
      return Some((p, |entitlements| - 1));
    }

    /** `refund`; false where it raises. A purchase already refunded is returned as it is. */
    method RefundPurchase(org: string, p: nat, accepted: bool) returns (ok: bool)
      modifies this`purchases, this`entitlements
      ensures State() == Next(old(State()), Refund(org, p, accepted))
      ensures ok <==> p < |old(purchases)| && old(purchases)[p].org == org
                      && (old(purchases)[p].status.Refunded? || (old(purchases)[p].status.Paid? && accepted))
      ensures p < |old(purchases)| && old(purchases)[p].org == org && old(purchases)[p].status == Paid && accepted ==>
                && purchases == old(purchases)[p := old(purchases)[p].(status := Refunded)]
                && AllRevoked(old(entitlements), org, p, entitlements)
      ensures !(p < |old(purchases)| && old(purchases)[p].org == org && old(purchases)[p].status == Paid && accepted) ==>
                purchases == old(purchases) && entitlements == old(entitlements)
    {
      if p >= |purchases| || purchases[p].org != org {
        return false;
      }
      if purchases[p].status.Refunded? {
        return true;
      }
      if !purchases[p].status.Paid? || !accepted {
        return false;
      }
      purchases := purchases[p := purchases[p].(status := Refunded)];
      for k := 0 to |entitlements|
        invariant |entitlements| == |old(entitlements)| && purchases == old(purchases)[p := old(purchases)[p].(status := Refunded)]
        invariant forall j :: 0 <= j < |entitlements| ==>
                    entitlements[j] == if j < k then RevokedBy(old(entitlements), org, p)[j] else old(entitlements)[j]
      {
        if entitlements[k].org == org && entitlements[k].purchase == p && entitlements[k].status.Active? {
          entitlements := entitlements[k := entitlements[k].(status := Revoked)];
        }
      }
      assert entitlements == RevokedBy(old(entitlements), org, p);
      return true;
    }

    /** `advance_rolling`; false where it raises. */
    method AdvanceRolling(k: nat) returns (ok: bool)
      modifies this`entitlements
      ensures ok <==> MayAdvance(old(State()), k)
      ensures State() == Next(old(State()), Advance(k))
      ensures ok <==> && k < |old(entitlements)| && old(entitlements)[k].access == Rolling && old(entitlements)[k].status == Active
                      && HasCurrent(offers, old(entitlements)[k].listing)
      ensures ok ==>
                && |entitlements| == |old(entitlements)| && OnOffer(offers, old(entitlements)[k].listing, entitlements[k].version)
                && entitlements == old(entitlements)[k := old(entitlements)[k].(version := entitlements[k].version)]
      ensures !ok ==> entitlements == old(entitlements)
    {
      if k < |entitlements| {
        CurrentExactly(offers, entitlements[k].listing);
      }
      if k >= |entitlements| || !entitlements[k].access.Rolling? || !entitlements[k].status.Active? {
        return false;
      }
      var i := FindCurrent(offers, entitlements[k].listing, 0);
      if i == |offers| {
        return false;
      }
      if entitlements[k].version != offers[i].version {
        entitlements := entitlements[k := entitlements[k].(version := offers[i].version)];
      }
      return true;
    }

    /** `expire_due`; how many expired. */
    method ExpireEntitlements(now: int) returns (expired: nat)
      modifies this`entitlements
      ensures State() == Next(old(State()), ExpireDue(now))
      ensures |entitlements| == |old(entitlements)| && expired == |set i | 0 <= i < |old(entitlements)| && Ended(old(entitlements)[i], now)|
      ensures forall i :: 0 <= i < |entitlements| ==>
                entitlements[i] == if Ended(old(entitlements)[i], now) then old(entitlements)[i].(status := Expired) else old(entitlements)[i]
    {
      DueCountExactly(entitlements, now, |entitlements|);
      expired := ExpireEach(now);
    }

    method ExpireEach(now: int) returns (expired: nat)
      modifies this`entitlements
      ensures entitlements == ExpiredAt(old(entitlements), now) && expired == DueCount(old(entitlements), now, |entitlements|)
    {
      expired := 0;
      for k := 0 to |entitlements|
        invariant |entitlements| == |old(entitlements)|
        invariant forall j :: 0 <= j < |entitlements| ==>
                    entitlements[j] == if j < k then ExpiredAt(old(entitlements), now)[j] else old(entitlements)[j]
        invariant expired == DueCount(old(entitlements), now, k)
      {
        var e := entitlements[k];
        if e.status.Active? && e.validUntil.Some? && e.validUntil.value <= now {
          entitlements := entitlements[k := e.(status := Expired)];
          expired := expired + 1;
        }
      }
      assert entitlements == ExpiredAt(old(entitlements), now);
    }

    /** `record_payout`: the totals it writes down. */
    method RecordPayout(org: string, from: int, to: int) returns (gross: real, fees: real, net: real, count: nat)
      ensures Payout(gross, fees, count) == Owed(State(), org, from, to, |purchases|) && net == gross - fees
    {
      gross, fees, count := 0.0, 0.0, 0;
      for i := 0 to |purchases|
        invariant Payout(gross, fees, count) == Owed(State(), org, from, to, i)
      {
        var p := purchases[i];
        if p.listing < |listings| && listings[p.listing].org == org && p.status.Paid? && from <= p.at < to {
          gross, fees, count := gross + p.amount, fees + p.fee, count + 1;
        }
      }
      net := gross - fees;
    }
  }
}
