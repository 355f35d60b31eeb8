/**
 The per-organization hash chain of platform/audit.py and the backfill of migration 0002.

 The chain is taken over any `Scheme`; where a result needs the hash to be sound it asks for
 `Ideal()`, which `AuditHash.SchemeIsIdeal` derives for the repository's own scheme.
 */
module AuditChain {
  import opened CanonicalJson
  import opened AuditHash

  /** One row of `audit_events`; its sequence and organization are among the covered fields. */
  datatype Event = Event(id: string, covered: Covered, previousHash: string, eventHash: string)

  // ----- verification -----

  datatype Reason = SequenceJumped(expected: int) | NotLinked | ContentChanged

  datatype ChainBreak = ChainBreak(sequence: int, eventId: string, reason: Reason)

  /** What one event is reported for, given its predecessor's hash and the sequence expected. */
  function BreaksAt(scheme: Scheme, e: Event, previousHash: string, expected: int): seq<ChainBreak> {
    (if e.covered.sequence != expected then [ChainBreak(e.covered.sequence, e.id, SequenceJumped(expected))] else [])
    + (if e.previousHash != previousHash then [ChainBreak(e.covered.sequence, e.id, NotLinked)] else [])
    + (if scheme.hash(e.covered, e.previousHash) != e.eventHash
       then [ChainBreak(e.covered.sequence, e.id, ContentChanged)] else [])
  }

  /** Everything reported from some point of a chain on; each event is then taken as it stands. */
  function Breaks(scheme: Scheme, events: seq<Event>, previousHash: string, expected: int): seq<ChainBreak> {
    if events == [] then []
    else
      BreaksAt(scheme, events[0], previousHash, expected)
      + Breaks(scheme, events[1..], events[0].eventHash, events[0].covered.sequence + 1)
  }

  function HeadHash(scheme: Scheme, events: seq<Event>): string {
    HashAfter(events, scheme.genesis)
  }

  /** Event `i` has its number, links to its predecessor, and carries its own content's hash. */
  ghost predicate Linked(scheme: Scheme, events: seq<Event>, i: nat)
    requires i < |events|
  {
    && events[i].covered.sequence == i + 1
    && events[i].previousHash == (if i == 0 then scheme.genesis else events[i - 1].eventHash)
    && events[i].eventHash == scheme.hash(events[i].covered, events[i].previousHash)
  }

  /** An intact chain: numbered 1..n, every link and every hash right. */
  ghost predicate Intact(scheme: Scheme, events: seq<Event>) {
    forall i :: 0 <= i < |events| ==> Linked(scheme, events, i)
  }

  /** The hash and the number that the event after `a` is measured against. */
  function HashAfter(a: seq<Event>, previousHash: string): string {
    if a == [] then previousHash else a[|a| - 1].eventHash
  }

  function NumberAfter(a: seq<Event>, expected: int): int {
    if a == [] then expected else a[|a| - 1].covered.sequence + 1
  }

  lemma AfterRest(a: seq<Event>, previousHash: string, expected: int)
    requires a != []
    ensures HashAfter(a[1..], a[0].eventHash) == HashAfter(a, previousHash)
    ensures NumberAfter(a[1..], a[0].covered.sequence + 1) == NumberAfter(a, expected)
  {
  }

  lemma BreaksFront(scheme: Scheme, a: seq<Event>, b: seq<Event>, previousHash: string, expected: int)
    requires a != []
    ensures Breaks(scheme, a + b, previousHash, expected)
         == BreaksAt(scheme, a[0], previousHash, expected)
            + Breaks(scheme, a[1..] + b, a[0].eventHash, a[0].covered.sequence + 1)
  {
    assert (a + b)[0] == a[0] && (a + b)[1..] == a[1..] + b;
  }

  lemma {:induction false} BreaksSplit(scheme: Scheme, a: seq<Event>, b: seq<Event>, previousHash: string, expected: int)
    ensures Breaks(scheme, a + b, previousHash, expected)
         == Breaks(scheme, a, previousHash, expected)
            + Breaks(scheme, b, HashAfter(a, previousHash), NumberAfter(a, expected))
    decreases |a|
  {
    if a == [] {
      assert a + b == b;
    } else {
      var e, rest := a[0], a[1..];
      BreaksSplit(scheme, rest, b, e.eventHash, e.covered.sequence + 1);
      AfterRest(a, previousHash, expected);
      BreaksFront(scheme, a, b, previousHash, expected);
      RegroupBreaks(BreaksAt(scheme, e, previousHash, expected),
              Breaks(scheme, rest, e.eventHash, e.covered.sequence + 1),
              Breaks(scheme, b, HashAfter(a, previousHash), NumberAfter(a, expected)));
    }
  }

  lemma RegroupBreaks(a: seq<ChainBreak>, b: seq<ChainBreak>, c: seq<ChainBreak>)
    ensures a + (b + c) == a + b + c
  {
  }

  /** The verifier's report about a whole chain. */
  function Report(scheme: Scheme, events: seq<Event>): seq<ChainBreak> {
    Breaks(scheme, events, scheme.genesis, 1)
  }

  lemma ReportLast(scheme: Scheme, events: seq<Event>)
    requires events != []
    ensures var init, last := events[..|events| - 1], events[|events| - 1];
            Report(scheme, events) == Report(scheme, init) + BreaksAt(scheme, last, HeadHash(scheme, init), NumberAfter(init, 1))
  {
    var init, last := events[..|events| - 1], events[|events| - 1];
    assert events == init + [last];
    BreaksSplit(scheme, init, [last], scheme.genesis, 1);
    assert [last][1..] == [];
  }

  lemma IntactLast(scheme: Scheme, events: seq<Event>)
    requires events != []
    ensures Intact(scheme, events) <==> Intact(scheme, events[..|events| - 1]) && Linked(scheme, events, |events| - 1)
  {
    var init := events[..|events| - 1];
    assert forall i :: 0 <= i < |init| ==> Linked(scheme, init, i) == Linked(scheme, events, i);
  }

  /** The verifier reports nothing exactly when the chain is intact. */
  lemma {:induction false} ReportExactly(scheme: Scheme, events: seq<Event>)
    ensures Report(scheme, events) == [] <==> Intact(scheme, events)
    decreases |events|
  {
    if events != [] {
      var n := |events| - 1;
      ReportLast(scheme, events);
      ReportExactly(scheme, events[..n]);
      IntactLast(scheme, events);
      assert n > 0 && Intact(scheme, events[..n]) ==> Linked(scheme, events[..n], n - 1);
    }
  }

  lemma {:induction false} PrefixIntact(scheme: Scheme, events: seq<Event>, n: nat)
    requires Intact(scheme, events) && n <= |events|
    ensures Intact(scheme, events[..n])
  {
    forall i | 0 <= i < n ensures Linked(scheme, events[..n], i) {
      assert Linked(scheme, events, i);
    }
  }

  // ----- what an intact chain means -----

  lemma HashDetermines(scheme: Scheme, a: Covered, p: string, b: Covered, q: string)
    requires scheme.Ideal()
    ensures scheme.hash(a, p) == scheme.hash(b, q) ==> a == b && p == q
    ensures scheme.hash(a, p) != scheme.genesis
  {
  }

  /** Two intact chains with the same head hash are the same history: same length, and the same value
      in every covered field of every event. */
  lemma {:induction false} HeadDeterminesHistory(scheme: Scheme, a: seq<Event>, b: seq<Event>)
    requires scheme.Ideal() && Intact(scheme, a) && Intact(scheme, b)
    requires HeadHash(scheme, a) == HeadHash(scheme, b)
    ensures |a| == |b|
    ensures forall i :: 0 <= i < |a| ==>
              a[i].covered == b[i].covered && a[i].previousHash == b[i].previousHash && a[i].eventHash == b[i].eventHash
    decreases |a| + |b|
  {
    if a != [] && b != [] {
      var m, n := |a| - 1, |b| - 1;
      assert Linked(scheme, a, m) && Linked(scheme, b, n);
      HashDetermines(scheme, a[m].covered, a[m].previousHash, b[n].covered, b[n].previousHash);
      PrefixIntact(scheme, a, m);
      PrefixIntact(scheme, b, n);
      HeadDeterminesHistory(scheme, a[..m], b[..n]);
      assert forall i :: 0 <= i < m ==> a[i] == a[..m][i] && b[i] == b[..n][i];
    } else {
      assert a != [] ==> Linked(scheme, a, |a| - 1);
      assert b != [] ==> Linked(scheme, b, |b| - 1);
    }
  }

  // ----- what tampering looks like in the report -----

  lemma IntactHashesDiffer(scheme: Scheme, a: seq<Event>, i: nat, j: nat)
    requires scheme.Ideal() && Intact(scheme, a) && i < j <= |a|
    ensures HeadHash(scheme, a[..i]) != HeadHash(scheme, a[..j])
  {
    var e := a[j - 1];
    assert a[..j][j - 1] == e && HeadHash(scheme, a[..j]) == e.eventHash;
    assert Linked(scheme, a, j - 1);
    if i > 0 {
      assert Linked(scheme, a, i - 1);
      assert a[..i][i - 1] == a[i - 1];
      HashDetermines(scheme, e.covered, e.previousHash, a[i - 1].covered, a[i - 1].previousHash);
    } else {
      HashDetermines(scheme, e.covered, e.previousHash, e.covered, "");
    }
  }

  /** An intact chain's own tail, read after anything that ends with the right hash and number. */
  lemma TailReport(scheme: Scheme, a: seq<Event>, k: nat)
    requires Intact(scheme, a) && k <= |a|
    ensures Breaks(scheme, a[k..], HeadHash(scheme, a[..k]), k + 1) == []
  {
    ReportExactly(scheme, a);
    assert a == a[..k] + a[k..];
    BreaksSplit(scheme, a[..k], a[k..], scheme.genesis, 1);
    PrefixEnds(scheme, a, k);
  }

  lemma PrefixEnds(scheme: Scheme, a: seq<Event>, k: nat)
    requires Intact(scheme, a) && k <= |a|
    ensures NumberAfter(a[..k], 1) == k + 1
  {
    if k > 0 {
      assert Linked(scheme, a, k - 1);
      assert a[..k][k - 1] == a[k - 1];
    }
  }

  lemma LinkedToPrefix(scheme: Scheme, a: seq<Event>, k: nat)
    requires Intact(scheme, a) && k < |a|
    ensures Linked(scheme, a, k) && a[k].previousHash == HeadHash(scheme, a[..k])
    ensures k > 0 ==> a[k].previousHash == a[k - 1].eventHash
  {
    assert Linked(scheme, a, k);
    if k > 0 {
      assert a[..k][k - 1] == a[k - 1];
    }
  }

  lemma BreaksStep(scheme: Scheme, events: seq<Event>, i: nat, previousHash: string, expected: int)
    requires i < |events|
    ensures Breaks(scheme, events[i..], previousHash, expected)
         == BreaksAt(scheme, events[i], previousHash, expected)
            + Breaks(scheme, events[i + 1..], events[i].eventHash, events[i].covered.sequence + 1)
  {
    assert events[i..][0] == events[i] && events[i..][1..] == events[i + 1..];
  }

  lemma TailAfter(scheme: Scheme, a: seq<Event>, k: nat)
    requires Intact(scheme, a) && k < |a|
    ensures Breaks(scheme, a[k + 1..], a[k].eventHash, k + 2) == []
  {
    TailReport(scheme, a, k + 1);
    assert a[..k + 1][k] == a[k];
    assert Linked(scheme, a, k);
  }

  /** An intact prefix, then one row of any kind, then anything. */
  lemma SplicedReport(scheme: Scheme, a: seq<Event>, k: nat, e: Event, rest: seq<Event>)
    requires Intact(scheme, a) && k <= |a|
    ensures Report(scheme, a[..k] + [e] + rest)
         == BreaksAt(scheme, e, HeadHash(scheme, a[..k]), k + 1)
            + Breaks(scheme, rest, e.eventHash, e.covered.sequence + 1)
  {
    var more := [e] + rest;
    assert a[..k] + [e] + rest == a[..k] + more;
    PrefixIntact(scheme, a, k);
    ReportExactly(scheme, a[..k]);
    BreaksSplit(scheme, a[..k], more, scheme.genesis, 1);
    PrefixEnds(scheme, a, k);
    BreaksStep(scheme, more, 0, HeadHash(scheme, a[..k]), k + 1);
    assert more[0..] == more && more[1..] == rest;
  }

  /** An event edited in place, its number kept, is reported, and it alone. */
  lemma EditedEventReported(scheme: Scheme, a: seq<Event>, k: nat, c: Covered)
    requires scheme.Ideal() && Intact(scheme, a) && k < |a|
    requires c != a[k].covered && c.sequence == a[k].covered.sequence
    ensures Report(scheme, a[k := a[k].(covered := c)]) == [ChainBreak(k + 1, a[k].id, ContentChanged)]
  {
    var e := a[k].(covered := c);
    assert a[k := e] == a[..k] + [e] + a[k + 1..];
    SplicedReport(scheme, a, k, e, a[k + 1..]);
    LinkedToPrefix(scheme, a, k);
    HashDetermines(scheme, c, a[k].previousHash, a[k].covered, a[k].previousHash);
    TailAfter(scheme, a, k);
  }

  /** With its own hash recomputed too, the next event is reported instead. */
  lemma RehashedEventReported(scheme: Scheme, a: seq<Event>, k: nat, c: Covered)
    requires scheme.Ideal() && Intact(scheme, a) && k + 1 < |a|
    requires c != a[k].covered && c.sequence == a[k].covered.sequence
    ensures var forged := a[k].(covered := c, eventHash := scheme.hash(c, a[k].previousHash));
            Report(scheme, a[k := forged]) == [ChainBreak(k + 2, a[k + 1].id, NotLinked)]
  {
    var e := a[k].(covered := c, eventHash := scheme.hash(c, a[k].previousHash));
    assert a[k := e] == a[..k] + [e] + a[k + 1..];
    SplicedReport(scheme, a, k, e, a[k + 1..]);
    LinkedToPrefix(scheme, a, k);
    LinkedToPrefix(scheme, a, k + 1);
    HashDetermines(scheme, c, a[k].previousHash, a[k].covered, a[k].previousHash);
    BreaksStep(scheme, a, k + 1, e.eventHash, k + 2);
    TailAfter(scheme, a, k + 1);
  }

  /** A deleted event other than the last is reported, twice, at the event that followed it and
      nowhere else: the verifier goes on from each event as it stands. */
  lemma DeletionReported(scheme: Scheme, a: seq<Event>, k: nat)
    requires scheme.Ideal() && Intact(scheme, a) && k + 1 < |a|
    ensures Report(scheme, a[..k] + a[k + 1..])
         == [ChainBreak(k + 2, a[k + 1].id, SequenceJumped(k + 1)), ChainBreak(k + 2, a[k + 1].id, NotLinked)]
  {
    assert a[..k] + a[k + 1..] == a[..k] + [a[k + 1]] + a[k + 2..];
    SplicedReport(scheme, a, k, a[k + 1], a[k + 2..]);
    LinkedToPrefix(scheme, a, k + 1);
    IntactHashesDiffer(scheme, a, k, k + 1);
    TailAfter(scheme, a, k + 1);
  }

  /** Truncation is the one deletion the chain alone cannot show: every prefix verifies. */
  lemma TruncationUnreported(scheme: Scheme, a: seq<Event>, n: nat)
    requires Intact(scheme, a) && n <= |a|
    ensures Report(scheme, a[..n]) == []
  {
    PrefixIntact(scheme, a, n);
    ReportExactly(scheme, a[..n]);
  }

  // ----- the table -----

  /** ORDER BY sequence: the row goes after every row that does not come later. */
  function Insert(sorted: seq<Event>, e: Event): seq<Event> {
    if sorted == [] || sorted[|sorted| - 1].covered.sequence <= e.covered.sequence then sorted + [e]
    else Insert(sorted[..|sorted| - 1], e) + [sorted[|sorted| - 1]]
  }

  /** An organization's events, ordered by sequence. */
  function Select(rows: seq<Event>, org: string): seq<Event> {
    if rows == [] then []
    else
      var earlier := Select(rows[..|rows| - 1], org);
      var last := rows[|rows| - 1];
      if last.covered.organizationId == org then Insert(earlier, last) else earlier
  }

  ghost predicate Ordered(events: seq<Event>) {
    forall i, j :: 0 <= i < j < |events| ==> events[i].covered.sequence <= events[j].covered.sequence
  }

  lemma {:induction false} InsertPermutes(sorted: seq<Event>, e: Event)
    ensures multiset(Insert(sorted, e)) == multiset(sorted) + multiset{e}
    ensures forall x :: x in Insert(sorted, e) ==> x == e || x in sorted
    decreases |sorted|
  {
    if sorted != [] {
      var init, last := sorted[..|sorted| - 1], sorted[|sorted| - 1];
      assert sorted == init + [last];
      InsertPermutes(init, e);
    }
  }

  lemma {:induction false} InsertOrders(sorted: seq<Event>, e: Event)
    requires Ordered(sorted)
    ensures Ordered(Insert(sorted, e))
    decreases |sorted|
  {
    if sorted != [] && sorted[|sorted| - 1].covered.sequence > e.covered.sequence {
      var init, last := sorted[..|sorted| - 1], sorted[|sorted| - 1];
      InsertOrders(init, e);
      InsertPermutes(init, e);
      var r := Insert(init, e);
      forall i | 0 <= i < |r| ensures r[i].covered.sequence <= last.covered.sequence {
        assert r[i] in r;
      }
    }
  }

  /** Whatever the table holds, `Select` is its rows of that organization in sequence order. */
  lemma {:induction false} SelectIsOrderBy(rows: seq<Event>, org: string)
    ensures Ordered(Select(rows, org))
    ensures forall e :: multiset(Select(rows, org))[e] == if e.covered.organizationId == org then multiset(rows)[e] else 0
    decreases |rows|
  {
    if rows != [] {
      var n := |rows| - 1;
      assert rows == rows[..n] + [rows[n]];
      SelectIsOrderBy(rows[..n], org);
      InsertOrders(Select(rows[..n], org), rows[n]);
      InsertPermutes(Select(rows[..n], org), rows[n]);
    }
  }

  // ----- appending -----

  /** What a caller of `record` supplies. Its sequence is the writer's to give. */
  datatype Entry = Entry(id: string, fields: Covered)

  function ChainHead(scheme: Scheme, rows: seq<Event>, org: string): (int, string) {
    var chain := Select(rows, org);
    if chain == [] then (0, scheme.genesis)
    else (chain[|chain| - 1].covered.sequence, chain[|chain| - 1].eventHash)
  }

  /** The row chained after a head. */
  function Chained(scheme: Scheme, entry: Entry, head: (int, string)): Event {
    var c := entry.fields.(sequence := head.0 + 1);
    Event(entry.id, c, head.1, scheme.hash(c, head.1))
  }

  /** The table after a run of `record` calls by any organizations in any order. */
  function RecordAll(scheme: Scheme, rows: seq<Event>, entries: seq<Entry>): seq<Event>
    decreases |entries|
  {
    if entries == [] then rows
    else
      var e := Chained(scheme, entries[0], ChainHead(scheme, rows, entries[0].fields.organizationId));
      RecordAll(scheme, rows + [e], entries[1..])
  }

  ghost predicate AllIntact(scheme: Scheme, rows: seq<Event>) {
    forall org :: Intact(scheme, Select(rows, org))
  }

  /** One append puts the new row at the end of its organization's chain and touches no other. */
  lemma AppendExtends(scheme: Scheme, rows: seq<Event>, entry: Entry, org: string)
    requires AllIntact(scheme, rows)
    ensures var mine := entry.fields.organizationId;
            var e := Chained(scheme, entry, ChainHead(scheme, rows, mine));
            && Select(rows + [e], org) == (if org == mine then Select(rows, org) + [e] else Select(rows, org))
            && Intact(scheme, Select(rows + [e], org))
  {
    var mine := entry.fields.organizationId;
    var e := Chained(scheme, entry, ChainHead(scheme, rows, mine));
    assert (rows + [e])[..|rows|] == rows;
    var chain := Select(rows, org);
    assert Intact(scheme, chain);
    if org == mine {
      var n := |chain|;
      assert n > 0 ==> Linked(scheme, chain, n - 1);
      assert (chain + [e])[..n] == chain;
      IntactLast(scheme, chain + [e]);
    }
  }

  ghost function EntriesOf(entries: seq<Entry>, org: string): seq<Entry> {
    if entries == [] then []
    else (if entries[0].fields.organizationId == org then [entries[0]] else []) + EntriesOf(entries[1..], org)
  }

  /** `event` is the row written for `entry`: same id, and every field but the sequence as supplied. */
  ghost predicate Wrote(event: Event, entry: Entry) {
    event.id == entry.id && event.covered.(sequence := 0) == entry.fields.(sequence := 0)
  }

  /** Any interleaving of `record` calls across organizations keeps every chain intact, never rewrites
      what was there, and extends each organization's chain by its own entries, in order. */
  lemma {:induction false} RecordsKeepChains(scheme: Scheme, rows: seq<Event>, entries: seq<Entry>, org: string)
    requires AllIntact(scheme, rows)
    ensures AllIntact(scheme, RecordAll(scheme, rows, entries))
    ensures var before, after := Select(rows, org), Select(RecordAll(scheme, rows, entries), org);
            var own := EntriesOf(entries, org);
            && |after| == |before| + |own| && before <= after
            && forall i :: 0 <= i < |own| ==> Wrote(after[|before| + i], own[i])
    decreases |entries|
  {
    if entries != [] {
      var mine := entries[0].fields.organizationId;
      var e := Chained(scheme, entries[0], ChainHead(scheme, rows, mine));
      forall o ensures Intact(scheme, Select(rows + [e], o)) {
        AppendExtends(scheme, rows, entries[0], o);
      }
      AppendExtends(scheme, rows, entries[0], org);
      RecordsKeepChains(scheme, rows + [e], entries[1..], org);
      var before, between := Select(rows, org), Select(rows + [e], org);
      var after := Select(RecordAll(scheme, rows, entries), org);
      var own, rest := EntriesOf(entries, org), EntriesOf(entries[1..], org);
      assert own == (if org == mine then [entries[0]] else []) + rest;
      forall i | 0 <= i < |own| ensures Wrote(after[|before| + i], own[i]) {
        if org == mine && i == 0 {
          assert after[|before|] == between[|before|] == e;
        } else {
          var k := i - |own| + |rest|;
          assert own[i] == rest[k] && |before| + i == |between| + k;
        }
      }
    }
  }

  lemma RecordsOne(scheme: Scheme, rows: seq<Event>, entry: Entry)
    requires AllIntact(scheme, rows)
    ensures var e := Chained(scheme, entry, ChainHead(scheme, rows, entry.fields.organizationId));
            RecordAll(scheme, rows, [entry]) == rows + [e] && AllIntact(scheme, rows + [e])
  {
    var e := Chained(scheme, entry, ChainHead(scheme, rows, entry.fields.organizationId));
    assert [entry][1..] == [];
    assert RecordAll(scheme, rows + [e], []) == rows + [e];
    forall o ensures Intact(scheme, Select(rows + [e], o)) {
      AppendExtends(scheme, rows, entry, o);
    }
  }

  lemma EmptyTableIntact(scheme: Scheme)
    ensures AllIntact(scheme, [])
  {
  }

  /** The migration's chains, and everything recorded after them, verify. */
  lemma BackfillThenRecords(scheme: Scheme, legacy: seq<Entry>, entries: seq<Entry>, org: string)
    ensures Report(scheme, Select(RecordAll(scheme, RecordAll(scheme, [], legacy), entries), org)) == []
  {
    EmptyTableIntact(scheme);
    RecordsKeepChains(scheme, [], legacy, org);
    RecordsKeepChains(scheme, RecordAll(scheme, [], legacy), entries, org);
    ReportExactly(scheme, Select(RecordAll(scheme, RecordAll(scheme, [], legacy), entries), org));
  }

  // ----- the code's own form -----

  /** The verifier's loop before event `i`: what it has reported and what it measures the event against. */
  ghost predicate ReportedSoFar(scheme: Scheme, events: seq<Event>, i: nat, breaks: seq<ChainBreak>, previousHash: string, expected: int) {
    && i <= |events| && breaks + Breaks(scheme, events[i..], previousHash, expected) == Report(scheme, events)
    && previousHash == if i == 0 then scheme.genesis else events[i - 1].eventHash
  }

  lemma ReportedNone(scheme: Scheme, events: seq<Event>)
    ensures ReportedSoFar(scheme, events, 0, [], scheme.genesis, 1)
  {
    assert events[0..] == events;
  }

  lemma ReportedOneMore(scheme: Scheme, events: seq<Event>, i: nat, breaks: seq<ChainBreak>, previousHash: string, expected: int,
                        more: seq<ChainBreak>)
    requires i < |events| && ReportedSoFar(scheme, events, i, breaks, previousHash, expected)
    requires more == breaks + BreaksAt(scheme, events[i], previousHash, expected)
    ensures ReportedSoFar(scheme, events, i + 1, more, events[i].eventHash, events[i].covered.sequence + 1)
  {
    BreaksStep(scheme, events, i, previousHash, expected);
    RegroupBreaks(breaks, BreaksAt(scheme, events[i], previousHash, expected),
                  Breaks(scheme, events[i + 1..], events[i].eventHash, events[i].covered.sequence + 1));
  }

  lemma ReportedAll(scheme: Scheme, events: seq<Event>, breaks: seq<ChainBreak>, previousHash: string, expected: int)
    requires ReportedSoFar(scheme, events, |events|, breaks, previousHash, expected)
    ensures breaks == Report(scheme, events) && previousHash == HeadHash(scheme, events)
  {
    assert events[|events|..] == [] && breaks + [] == breaks;
  }

  /** The `audit_events` table. */
  class AuditLog {
    var rows: seq<Event>
    const scheme: Scheme

    constructor (scheme: Scheme)
      ensures rows == [] && this.scheme == scheme && AllIntact(scheme, rows)
    {
      this.scheme := scheme;
      rows := [];
    }

    /** Append one event after its organization's head. */
    method Record(entry: Entry) returns (event: Event)
      requires AllIntact(scheme, rows)
      modifies this`rows
      ensures rows == old(rows) + [event] && Wrote(event, entry)
      ensures rows == RecordAll(scheme, old(rows), [entry]) && AllIntact(scheme, rows)
    {
      var chain := Select(rows, entry.fields.organizationId);
      var previousSequence, previousHash := 0, scheme.genesis;
      if chain != [] {
        previousSequence := chain[|chain| - 1].covered.sequence;
        previousHash := chain[|chain| - 1].eventHash;
      }
      var c := entry.fields.(sequence := previousSequence + 1);
      event := Event(entry.id, c, previousHash, scheme.hash(c, previousHash));
      RecordsOne(scheme, rows, entry);
      rows := rows + [event];
    }

    /** Recompute an organization's chain and report every break. */
    method VerifyChain(org: string) returns (breaks: seq<ChainBreak>, checked: nat, head: string)
      ensures breaks == Report(scheme, Select(rows, org))
      ensures breaks == [] <==> Intact(scheme, Select(rows, org))
      ensures checked == |Select(rows, org)| && head == HeadHash(scheme, Select(rows, org))
    {
      var events := Select(rows, org);
      var previousHash, expected := scheme.genesis, 1;
      breaks := [];
      ReportedNone(scheme, events);
      for i := 0 to |events|
        invariant ReportedSoFar(scheme, events, i, breaks, previousHash, expected)
      {
        var more, next := Inspect(events[i], previousHash, expected, breaks);
        ReportedOneMore(scheme, events, i, breaks, previousHash, expected, more);
        breaks, expected, previousHash := more, next, events[i].eventHash;
      }
      checked, head := |events|, previousHash;
      ReportedAll(scheme, events, breaks, previousHash, expected);
      ReportExactly(scheme, events);
    }

    /** The body of the verifier's loop for one event. */
    method Inspect(event: Event, previousHash: string, expected: int, breaks: seq<ChainBreak>)
      returns (more: seq<ChainBreak>, next: int)
      ensures more == breaks + BreaksAt(scheme, event, previousHash, expected)
      ensures next == event.covered.sequence + 1
    {
      more, next := breaks, expected;
      if event.covered.sequence != next {
        more := more + [ChainBreak(event.covered.sequence, event.id, SequenceJumped(next))];
        next := event.covered.sequence;
      }
      if event.previousHash != previousHash {
        more := more + [ChainBreak(event.covered.sequence, event.id, NotLinked)];
      }
      if scheme.hash(event.covered, event.previousHash) != event.eventHash {
        more := more + [ChainBreak(event.covered.sequence, event.id, ContentChanged)];
      }
      next := next + 1;
    }
  }

  /** The heads map holds what a query for each chain's head would return. */
  ghost predicate Cached(scheme: Scheme, rows: seq<Event>, heads: map<string, (int, string)>) {
    forall org :: ChainHead(scheme, rows, org) == if org in heads then heads[org] else (0, scheme.genesis)
  }

  lemma CachedAfter(scheme: Scheme, rows: seq<Event>, heads: map<string, (int, string)>, entry: Entry)
    requires AllIntact(scheme, rows) && Cached(scheme, rows, heads)
    ensures var org := entry.fields.organizationId;
            var e := Chained(scheme, entry, ChainHead(scheme, rows, org));
            AllIntact(scheme, rows + [e]) && Cached(scheme, rows + [e], heads[org := (e.covered.sequence, e.eventHash)])
  {
    forall o {
      AppendExtends(scheme, rows, entry, o);
    }
  }

  /** Row by row, what was supplied with a number and a link. */
  ghost predicate AllWrote(rows: seq<Event>, entries: seq<Entry>) {
    |rows| == |entries| && forall i :: 0 <= i < |rows| ==> Wrote(rows[i], entries[i])
  }

  /** The migration's loop before row `i`. */
  ghost predicate Backfilled(scheme: Scheme, legacy: seq<Entry>, i: nat, rows: seq<Event>, heads: map<string, (int, string)>) {
    && i <= |legacy| && RecordAll(scheme, rows, legacy[i..]) == RecordAll(scheme, [], legacy)
    && AllWrote(rows, legacy[..i]) && AllIntact(scheme, rows) && Cached(scheme, rows, heads)
  }

  lemma BackfilledOneMore(scheme: Scheme, legacy: seq<Entry>, i: nat, rows: seq<Event>, heads: map<string, (int, string)>)
    requires i < |legacy| && Backfilled(scheme, legacy, i, rows, heads)
    ensures var org := legacy[i].fields.organizationId;
            var e := Chained(scheme, legacy[i], if org in heads then heads[org] else (0, scheme.genesis));
            Backfilled(scheme, legacy, i + 1, rows + [e], heads[org := (e.covered.sequence, e.eventHash)])
  {
    CachedAfter(scheme, rows, heads, legacy[i]);
    assert legacy[i..][0] == legacy[i] && legacy[i..][1..] == legacy[i + 1..];
    assert legacy[..i + 1] == legacy[..i] + [legacy[i]];
  }

  lemma BackfilledAll(scheme: Scheme, legacy: seq<Entry>, rows: seq<Event>, heads: map<string, (int, string)>)
    requires Backfilled(scheme, legacy, |legacy|, rows, heads)
    ensures rows == RecordAll(scheme, [], legacy) && AllWrote(rows, legacy) && AllIntact(scheme, rows)
  {
    assert legacy[..|legacy|] == legacy && legacy[|legacy|..] == [];
  }

  /** The migration's loop: a map from organization to the head of its chain, in place of a query. It
      writes the very table that recording the legacy rows one by one would have written. */
  method Backfill(scheme: Scheme, legacy: seq<Entry>) returns (rows: seq<Event>)
    ensures rows == RecordAll(scheme, [], legacy) && AllWrote(rows, legacy) && AllIntact(scheme, rows)
  {
    rows := [];
    var heads: map<string, (int, string)> := map[];
    assert legacy[0..] == legacy;
    EmptyTableIntact(scheme);
    for i := 0 to |legacy|
      invariant Backfilled(scheme, legacy, i, rows, heads)
    {
      BackfilledOneMore(scheme, legacy, i, rows, heads);
      var entry := legacy[i];
      var org := entry.fields.organizationId;
      var (sequence, previousHash) := if org in heads then heads[org] else (0, scheme.genesis);
      sequence := sequence + 1;
      var c := entry.fields.(sequence := sequence);
      var eventHash := scheme.hash(c, previousHash);
      rows := rows + [Event(entry.id, c, previousHash, eventHash)];
      heads := heads[org := (sequence, eventHash)];
    }
    BackfilledAll(scheme, legacy, rows, heads);
  }
}
