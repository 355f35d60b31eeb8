/**
 What tampering with the `audit_events` table looks like in the reports of `verify_chain`, for every
 row, every covered field and every organization at once.
 */
module AuditTampering {
  import opened CanonicalJson
  import opened AuditHash
  import opened AuditChain

  // ----- ordered permutations -----

  /** Numbered without repetition, in order. */
  ghost predicate Strict(events: seq<Event>) {
    forall i, j :: 0 <= i < j < |events| ==> events[i].covered.sequence < events[j].covered.sequence
  }

  lemma LastIsGreatest(a: seq<Event>, b: seq<Event>)
    requires Ordered(a) && Strict(b) && multiset(a) == multiset(b) && b != []
    ensures a != [] && a[|a| - 1] == b[|b| - 1]
  {
    assert |multiset(a)| == |multiset(b)|;
    var x, y := a[|a| - 1], b[|b| - 1];
    assert x in multiset(b) && y in multiset(a);
    var i :| 0 <= i < |b| && b[i] == x;
    var j :| 0 <= j < |a| && a[j] == y;
  }

  /** Only one order of the same rows is strict. */
  lemma {:induction false} OrderedUnique(a: seq<Event>, b: seq<Event>)
    requires Ordered(a) && Strict(b) && multiset(a) == multiset(b)
    ensures a == b
    decreases |b|
  {
    assert |multiset(a)| == |multiset(b)|;
    if b != [] {
      LastIsGreatest(a, b);
      WithoutLast(a);
      WithoutLast(b);
      OrderedUnique(a[..|a| - 1], b[..|b| - 1]);
    }
  }

  lemma WithoutLast(a: seq<Event>)
    requires a != []
    ensures a == a[..|a| - 1] + [a[|a| - 1]] && multiset(a[..|a| - 1]) == multiset(a) - multiset{a[|a| - 1]}
  {
    assert a == a[..|a| - 1] + [a[|a| - 1]];
  }

  lemma WithoutOne(a: seq<Event>, k: nat)
    requires k < |a|
    ensures multiset(a[..k] + a[k + 1..]) == multiset(a) - multiset{a[k]}
  {
    assert a == a[..k] + [a[k]] + a[k + 1..];
  }

  lemma StrictWithout(a: seq<Event>, k: nat)
    requires Strict(a) && k < |a|
    ensures Strict(a[..k] + a[k + 1..])
  {
    var left := a[..k] + a[k + 1..];
    forall i, j | 0 <= i < j < |left| ensures left[i].covered.sequence < left[j].covered.sequence {
      assert left[i] == a[if i < k then i else i + 1] && left[j] == a[if j < k then j else j + 1];
    }
  }

  lemma IntactIsStrict(scheme: Scheme, chain: seq<Event>)
    requires Intact(scheme, chain)
    ensures Strict(chain)
  {
    forall i, j | 0 <= i < j < |chain| ensures chain[i].covered.sequence < chain[j].covered.sequence {
      assert Linked(scheme, chain, i) && Linked(scheme, chain, j);
    }
  }

  lemma StrictCountsOnce(chain: seq<Event>, i: nat)
    requires Strict(chain) && i < |chain|
    ensures multiset(chain)[chain[i]] == 1
  {
    assert chain == chain[..i] + [chain[i]] + chain[i + 1..];
    assert chain[i] !in chain[..i] && chain[i] !in chain[i + 1..];
  }

  // ----- one row more, less or other in a chain -----

  /** With a row added, a chain is intact exactly when that row is the one its writer would append. */
  lemma AddedExactly(scheme: Scheme, chain: seq<Event>, x: Event, after: seq<Event>)
    requires Intact(scheme, chain) && Ordered(after) && multiset(after) == multiset(chain) + multiset{x}
    ensures Intact(scheme, after) <==> Linked(scheme, chain + [x], |chain|)
  {
    var n := |chain|;
    assert multiset(chain + [x]) == multiset(after);
    assert |multiset(after)| == n + 1;
    if Intact(scheme, after) || Linked(scheme, chain + [x], n) {
      if Intact(scheme, after) {
        LastAdded(scheme, chain, x, after);
      }
      IntactIsStrict(scheme, chain);
      assert Strict(chain + [x]) by {
        NumbersUpTo(scheme, chain);
      }
      OrderedUnique(after, chain + [x]);
      assert (chain + [x])[..n] == chain;
      IntactLast(scheme, chain + [x]);
    }
  }

  lemma NumbersUpTo(scheme: Scheme, chain: seq<Event>)
    requires Intact(scheme, chain)
    ensures forall e <- chain :: 1 <= e.covered.sequence <= |chain|
  {
    forall e | e in chain ensures 1 <= e.covered.sequence <= |chain| {
      var i :| 0 <= i < |chain| && chain[i] == e;
      assert Linked(scheme, chain, i);
    }
  }

  lemma LastAdded(scheme: Scheme, chain: seq<Event>, x: Event, after: seq<Event>)
    requires Intact(scheme, chain) && Intact(scheme, after) && multiset(after) == multiset(chain) + multiset{x}
    ensures x.covered.sequence == |chain| + 1
  {
    assert |multiset(after)| == |chain| + 1;
    assert Linked(scheme, after, |chain|);
    NumbersUpTo(scheme, chain);
    assert after[|chain|] in multiset(after);
  }

  /** With a row taken out, what is left is the chain without it, intact exactly when it was the last. */
  lemma RemovedExactly(scheme: Scheme, chain: seq<Event>, k: nat, after: seq<Event>)
    requires Intact(scheme, chain) && k < |chain| && Ordered(after)
    requires multiset(after) == multiset(chain) - multiset{chain[k]}
    ensures after == chain[..k] + chain[k + 1..]
    ensures Intact(scheme, after) <==> k + 1 == |chain|
  {
    WithoutOne(chain, k);
    IntactIsStrict(scheme, chain);
    StrictWithout(chain, k);
    OrderedUnique(after, chain[..k] + chain[k + 1..]);
    ShortenedExactly(scheme, chain, k);
  }

  lemma ShortenedExactly(scheme: Scheme, chain: seq<Event>, k: nat)
    requires Intact(scheme, chain) && k < |chain|
    ensures Intact(scheme, chain[..k] + chain[k + 1..]) <==> k + 1 == |chain|
  {
    var left := chain[..k] + chain[k + 1..];
    if k + 1 == |chain| {
      assert left == chain[..k];
      PrefixIntact(scheme, chain, k);
    } else {
      assert left[k] == chain[k + 1];
      assert Linked(scheme, chain, k + 1);
      assert !Linked(scheme, left, k);
    }
  }

  /** With a row replaced by one of the same number, the others stay where they were. */
  lemma ReplacedInPlace(scheme: Scheme, chain: seq<Event>, k: nat, x: Event, after: seq<Event>)
    requires Intact(scheme, chain) && k < |chain| && Ordered(after) && x.covered.sequence == k + 1
    requires multiset(after) == multiset(chain) - multiset{chain[k]} + multiset{x}
    ensures after == chain[k := x]
  {
    IntactIsStrict(scheme, chain);
    assert Linked(scheme, chain, k);
    assert Strict(chain[k := x]);
    OrderedUnique(after, chain[k := x]);
  }

  /** A number that a chain has lost is missed. */
  lemma RenumberedIsReported(scheme: Scheme, chain: seq<Event>, k: nat, x: Event, after: seq<Event>)
    requires Intact(scheme, chain) && k < |chain| && x.covered.sequence != k + 1
    requires multiset(after) == multiset(chain) - multiset{chain[k]} + multiset{x}
    ensures !Intact(scheme, after)
  {
    assert |multiset(after)| == |chain|;
    NumberGone(scheme, chain, k, x, after[k], after);
    assert !Linked(scheme, after, k);
  }

  lemma NumberGone(scheme: Scheme, chain: seq<Event>, k: nat, x: Event, e: Event, after: seq<Event>)
    requires Intact(scheme, chain) && k < |chain| && x.covered.sequence != k + 1 && e in after
    requires multiset(after) == multiset(chain) - multiset{chain[k]} + multiset{x}
    ensures e.covered.sequence != k + 1
  {
    IntactIsStrict(scheme, chain);
    StrictCountsOnce(chain, k);
    assert e in multiset(after);
    if e != x {
      var i :| 0 <= i < |chain| && chain[i] == e;
      assert Linked(scheme, chain, i);
    }
  }

  /** With a row replaced by one that carries its link and its own right hash, a chain is intact exactly
      when the row was the last and kept its number. */
  lemma ReplacedExactly(scheme: Scheme, chain: seq<Event>, k: nat, x: Event, after: seq<Event>)
    requires Intact(scheme, chain) && k < |chain| && Ordered(after)
    requires multiset(after) == multiset(chain) - multiset{chain[k]} + multiset{x}
    requires x.previousHash == chain[k].previousHash && x.eventHash == scheme.hash(x.covered, x.previousHash)
    requires x.eventHash != chain[k].eventHash
    ensures Intact(scheme, after) <==> k + 1 == |chain| && x.covered.sequence == k + 1
  {
    if x.covered.sequence != k + 1 {
      RenumberedIsReported(scheme, chain, k, x, after);
    } else {
      ReplacedInPlace(scheme, chain, k, x, after);
      assert Linked(scheme, chain, k);
      if k + 1 < |chain| {
        assert Linked(scheme, chain, k + 1);
        assert !Linked(scheme, after, k + 1);
      } else {
        assert after[..k] == chain[..k];
        PrefixIntact(scheme, chain, k);
        IntactLast(scheme, after);
      }
    }
  }

  // ----- rows of the table -----

  /** Where row `p` stands in its organization's chain. */
  lemma PlaceInChain(scheme: Scheme, rows: seq<Event>, p: nat) returns (k: nat)
    requires AllIntact(scheme, rows) && p < |rows|
    ensures var chain := Select(rows, rows[p].covered.organizationId);
            k < |chain| && chain[k] == rows[p] && rows[p].covered.sequence == k + 1
  {
    var org := rows[p].covered.organizationId;
    var chain := Select(rows, org);
    SelectIsOrderBy(rows, org);
    assert rows[p] in multiset(rows) && multiset(chain)[rows[p]] > 0;
    k :| 0 <= k < |chain| && chain[k] == rows[p];
    assert Intact(scheme, chain) && Linked(scheme, chain, k);
  }

  /** An organization's rows with `x` taken out of the table, or put into it. */
  ghost function Less(own: multiset<Event>, x: Event, org: string): multiset<Event> {
    if x.covered.organizationId == org then own - multiset{x} else own
  }

  ghost function More(own: multiset<Event>, x: Event, org: string): multiset<Event> {
    if x.covered.organizationId == org then own + multiset{x} else own
  }

  lemma SelectWithout(rows: seq<Event>, less: seq<Event>, x: Event, org: string)
    requires x in rows && multiset(less) == multiset(rows) - multiset{x}
    ensures Ordered(Select(less, org))
    ensures multiset(Select(less, org))
         == Less(multiset(Select(rows, org)), x, org)
  {
    SelectWith(less, rows, x, org);
    SelectIsOrderBy(less, org);
  }

  lemma SelectWith(rows: seq<Event>, more: seq<Event>, x: Event, org: string)
    requires multiset(more) == multiset(rows) + multiset{x}
    ensures Ordered(Select(more, org))
    ensures multiset(Select(more, org))
         == More(multiset(Select(rows, org)), x, org)
  {
    SelectIsOrderBy(more, org);
    forall e ensures multiset(Select(more, org))[e]
                  == multiset(Select(rows, org))[e] + (if e == x && x.covered.organizationId == org then 1 else 0) {
      CountWith(rows, more, x, org, e);
    }
  }

  lemma CountWith(rows: seq<Event>, more: seq<Event>, x: Event, org: string, e: Event)
    requires multiset(more) == multiset(rows) + multiset{x}
    ensures multiset(Select(more, org))[e]
         == multiset(Select(rows, org))[e] + (if e == x && x.covered.organizationId == org then 1 else 0)
  {
    SelectIsOrderBy(rows, org);
    SelectIsOrderBy(more, org);
    assert multiset(more)[e] == multiset(rows)[e] + multiset{x}[e];
  }

  lemma SelectReplaced(rows: seq<Event>, p: nat, x: Event, org: string)
    requires p < |rows|
    ensures Ordered(Select(rows[p := x], org))
    ensures multiset(Select(rows[p := x], org))
         == More(Less(multiset(Select(rows, org)), rows[p], org), x, org)
  {
    var less := rows[..p] + rows[p + 1..];
    assert rows == rows[..p] + [rows[p]] + rows[p + 1..];
    assert rows[p := x] == rows[..p] + [x] + rows[p + 1..];
    SelectWithout(rows, less, rows[p], org);
    SelectWith(less, rows[p := x], x, org);
  }

  lemma SelectUntouched(scheme: Scheme, rows: seq<Event>, after: seq<Event>, org: string)
    requires AllIntact(scheme, rows) && Ordered(Select(after, org))
    requires multiset(Select(after, org)) == multiset(Select(rows, org))
    ensures Select(after, org) == Select(rows, org)
  {
    assert Intact(scheme, Select(rows, org));
    IntactIsStrict(scheme, Select(rows, org));
    OrderedUnique(Select(after, org), Select(rows, org));
  }

  // ----- insertions and deletions -----

  /** After a row is deleted every chain verifies if and only if the row was the last of its chain. */
  lemma DeletedRowExactly(scheme: Scheme, rows: seq<Event>, p: nat)
    requires AllIntact(scheme, rows) && p < |rows|
    ensures AllIntact(scheme, rows[..p] + rows[p + 1..])
       <==> rows[p].covered.sequence == |Select(rows, rows[p].covered.organizationId)|
  {
    var less, org := rows[..p] + rows[p + 1..], rows[p].covered.organizationId;
    assert rows == rows[..p] + [rows[p]] + rows[p + 1..];
    var k := PlaceInChain(scheme, rows, p);
    SelectWithout(rows, less, rows[p], org);
    RemovedExactly(scheme, Select(rows, org), k, Select(less, org));
    forall o | o != org ensures Intact(scheme, Select(less, o)) {
      SelectWithout(rows, less, rows[p], o);
      SelectUntouched(scheme, rows, less, o);
    }
  }

  /** After a row is inserted, anywhere in the table, every chain verifies if and only if it is the very
      row `record` would have appended: next number, the head's hash as its link, its own hash right. */
  lemma InsertedRowExactly(scheme: Scheme, rows: seq<Event>, p: nat, x: Event)
    requires AllIntact(scheme, rows) && p <= |rows|
    ensures AllIntact(scheme, rows[..p] + [x] + rows[p..])
       <==> x == Chained(scheme, Entry(x.id, x.covered), ChainHead(scheme, rows, x.covered.organizationId))
  {
    var more, org := rows[..p] + [x] + rows[p..], x.covered.organizationId;
    assert rows == rows[..p] + rows[p..];
    var chain := Select(rows, org);
    assert Intact(scheme, chain);
    SelectWith(rows, more, x, org);
    AddedExactly(scheme, chain, x, Select(more, org));
    AppendedExactly(scheme, rows, x);
    forall o | o != org ensures Intact(scheme, Select(more, o)) {
      SelectWith(rows, more, x, o);
      SelectUntouched(scheme, rows, more, o);
    }
  }

  lemma AppendedExactly(scheme: Scheme, rows: seq<Event>, x: Event)
    requires Intact(scheme, Select(rows, x.covered.organizationId))
    ensures var chain := Select(rows, x.covered.organizationId);
            Linked(scheme, chain + [x], |chain|)
            <==> x == Chained(scheme, Entry(x.id, x.covered), ChainHead(scheme, rows, x.covered.organizationId))
  {
    var chain := Select(rows, x.covered.organizationId);
    if chain != [] {
      assert Linked(scheme, chain, |chain| - 1);
    }
  }

  // ----- edits in place -----

  /** Any rows were edited, in any covered fields, their ids, links and hashes left as they were. */
  ghost predicate Edited(rows: seq<Event>, edited: seq<Event>) {
    |edited| == |rows| && forall i :: 0 <= i < |rows| ==> edited[i] == rows[i].(covered := edited[i].covered)
  }

  lemma {:induction false} WrongHashReported(scheme: Scheme, events: seq<Event>, i: nat, previousHash: string, expected: int)
    requires i < |events| && events[i].eventHash != scheme.hash(events[i].covered, events[i].previousHash)
    ensures ChainBreak(events[i].covered.sequence, events[i].id, ContentChanged) in Breaks(scheme, events, previousHash, expected)
    decreases i
  {
    if i > 0 {
      WrongHashReported(scheme, events[1..], i - 1, events[0].eventHash, events[0].covered.sequence + 1);
    }
  }

  /** Each edited row is reported for its content by the organization it now claims to belong to. */
  lemma EditedRowReported(scheme: Scheme, rows: seq<Event>, edited: seq<Event>, p: nat)
    requires scheme.Ideal() && AllIntact(scheme, rows) && Edited(rows, edited)
    requires p < |rows| && edited[p].covered != rows[p].covered
    ensures ChainBreak(edited[p].covered.sequence, rows[p].id, ContentChanged)
         in Report(scheme, Select(edited, edited[p].covered.organizationId))
  {
    var k := PlaceInChain(scheme, rows, p);
    var e, x, chain := rows[p], edited[p], Select(rows, rows[p].covered.organizationId);
    assert Intact(scheme, chain) && Linked(scheme, chain, k);
    HashDetermines(scheme, e.covered, e.previousHash, x.covered, x.previousHash);
    var events := Select(edited, x.covered.organizationId);
    SelectIsOrderBy(edited, x.covered.organizationId);
    assert x in multiset(edited) && multiset(events)[x] > 0;
    var i :| 0 <= i < |events| && events[i] == x;
    WrongHashReported(scheme, events, i, scheme.genesis, 1);
  }

  /** However many rows are edited in place, and even if they trade places or organizations, every chain
      verifies afterwards only if nothing was changed. */
  lemma EditsReportedExactly(scheme: Scheme, rows: seq<Event>, edited: seq<Event>)
    requires scheme.Ideal() && AllIntact(scheme, rows) && Edited(rows, edited)
    ensures AllIntact(scheme, edited) <==> edited == rows
  {
    forall p | 0 <= p < |rows| && edited[p].covered != rows[p].covered ensures !AllIntact(scheme, edited) {
      EditedRowReported(scheme, rows, edited, p);
      ReportExactly(scheme, Select(edited, edited[p].covered.organizationId));
    }
  }

  /** One row edited in place, its number and organization kept: its own report names it alone, and no
      other organization's report names anything. */
  lemma EditedAlone(scheme: Scheme, rows: seq<Event>, p: nat, c: Covered, org: string)
    requires scheme.Ideal() && AllIntact(scheme, rows) && p < |rows| && c != rows[p].covered
    requires c.organizationId == rows[p].covered.organizationId && c.sequence == rows[p].covered.sequence
    ensures Report(scheme, Select(rows[p := rows[p].(covered := c)], org))
         == if org == c.organizationId then [ChainBreak(c.sequence, rows[p].id, ContentChanged)] else []
  {
    var x, own := rows[p].(covered := c), c.organizationId;
    SelectReplaced(rows, p, x, org);
    if org == own {
      var k := PlaceInChain(scheme, rows, p);
      ReplacedInPlace(scheme, Select(rows, own), k, x, Select(rows[p := x], own));
      EditedEventReported(scheme, Select(rows, own), k, c);
    } else {
      SelectUntouched(scheme, rows, rows[p := x], org);
      ReportExactly(scheme, Select(rows, org));
    }
  }

  /** One row edited to belong to another organization: the one it left reports its absence, twice, at
      the event that followed it, or nothing if none followed; the one it joined reports its content. */
  lemma MovedRowReports(scheme: Scheme, rows: seq<Event>, p: nat, c: Covered)
    requires scheme.Ideal() && AllIntact(scheme, rows) && p < |rows|
    requires c.organizationId != rows[p].covered.organizationId
    ensures var org, edited := rows[p].covered.organizationId, rows[p := rows[p].(covered := c)];
            var chain, n := Select(rows, org), rows[p].covered.sequence;
            && 1 <= n <= |chain|
            && Report(scheme, Select(edited, org))
               == (if n == |chain| then []
                   else [ChainBreak(n + 1, chain[n].id, SequenceJumped(n)), ChainBreak(n + 1, chain[n].id, NotLinked)])
            && ChainBreak(c.sequence, rows[p].id, ContentChanged) in Report(scheme, Select(edited, c.organizationId))
  {
    var x, org := rows[p].(covered := c), rows[p].covered.organizationId;
    var edited, chain := rows[p := x], Select(rows, org);
    var k := PlaceInChain(scheme, rows, p);
    SelectReplaced(rows, p, x, org);
    RemovedExactly(scheme, chain, k, Select(edited, org));
    if k + 1 == |chain| {
      ReportExactly(scheme, Select(edited, org));
    } else {
      DeletionReported(scheme, chain, k);
    }
    EditedRowReported(scheme, rows, edited, p);
  }

  // ----- edits with the row's own hash recomputed -----

  function Rehashed(scheme: Scheme, e: Event, c: Covered): Event {
    e.(covered := c, eventHash := scheme.hash(c, e.previousHash))
  }

  /** Two intact chains of different organizations end in different hashes, unless both are empty. */
  lemma HeadsDiffer(scheme: Scheme, a: seq<Event>, b: seq<Event>)
    requires scheme.Ideal() && Intact(scheme, a) && Intact(scheme, b)
    requires a != [] && b != [] ==> a[0].covered.organizationId != b[0].covered.organizationId
    ensures HeadHash(scheme, a) == HeadHash(scheme, b) <==> a == [] && b == []
  {
    if HeadHash(scheme, a) == HeadHash(scheme, b) {
      HeadDeterminesHistory(scheme, a, b);
    }
  }

  lemma OwnRows(rows: seq<Event>, org: string)
    ensures forall e <- Select(rows, org) :: e.covered.organizationId == org
  {
    SelectIsOrderBy(rows, org);
    forall e | e in Select(rows, org) ensures e.covered.organizationId == org {
      assert multiset(Select(rows, org))[e] > 0;
    }
  }

  /** The organization a rehashed row moved to verifies exactly when it was empty and the row opens it. */
  lemma JoinedExactly(scheme: Scheme, rows: seq<Event>, p: nat, k: nat, c: Covered)
    requires scheme.Ideal() && AllIntact(scheme, rows) && p < |rows|
    requires c.organizationId != rows[p].covered.organizationId
    requires var chain := Select(rows, rows[p].covered.organizationId); k < |chain| && chain[k] == rows[p]
    ensures Intact(scheme, Select(rows[p := Rehashed(scheme, rows[p], c)], c.organizationId))
       <==> Select(rows, c.organizationId) == [] && k == 0 && c.sequence == 1
  {
    var x, own, joined := Rehashed(scheme, rows[p], c), Select(rows, rows[p].covered.organizationId), Select(rows, c.organizationId);
    assert Intact(scheme, own) && Intact(scheme, joined);
    SelectReplaced(rows, p, x, c.organizationId);
    AddedExactly(scheme, joined, x, Select(rows[p := x], c.organizationId));
    PrefixIntact(scheme, own, k);
    LinkedToPrefix(scheme, own, k);
    OwnRows(rows, rows[p].covered.organizationId);
    OwnRows(rows, c.organizationId);
    assert k > 0 ==> own[..k][0] == own[0] && own[0] in own;
    assert joined != [] ==> joined[0] in joined;
    HeadsDiffer(scheme, own[..k], joined);
    LinkedLast(scheme, joined, x);
  }

  lemma LinkedLast(scheme: Scheme, chain: seq<Event>, x: Event)
    ensures Linked(scheme, chain + [x], |chain|)
       <==> && x.covered.sequence == |chain| + 1 && x.previousHash == HeadHash(scheme, chain)
            && x.eventHash == scheme.hash(x.covered, x.previousHash)
  {
  }

  /** A change of one row concerns at most two chains. */
  lemma OtherChainsKept(scheme: Scheme, rows: seq<Event>, p: nat, x: Event)
    requires AllIntact(scheme, rows) && p < |rows|
    ensures AllIntact(scheme, rows[p := x])
       <==> && Intact(scheme, Select(rows[p := x], rows[p].covered.organizationId))
            && Intact(scheme, Select(rows[p := x], x.covered.organizationId))
  {
    var after := rows[p := x];
    forall o | o != rows[p].covered.organizationId && o != x.covered.organizationId ensures Intact(scheme, Select(after, o)) {
      SelectReplaced(rows, p, x, o);
      SelectUntouched(scheme, rows, after, o);
    }
  }

  lemma LeftExactly(scheme: Scheme, rows: seq<Event>, p: nat, k: nat, x: Event)
    requires AllIntact(scheme, rows) && p < |rows| && x.covered.organizationId != rows[p].covered.organizationId
    requires var chain := Select(rows, rows[p].covered.organizationId); k < |chain| && chain[k] == rows[p]
    ensures Intact(scheme, Select(rows[p := x], rows[p].covered.organizationId))
       <==> k + 1 == |Select(rows, rows[p].covered.organizationId)|
  {
    var org := rows[p].covered.organizationId;
    SelectReplaced(rows, p, x, org);
    assert Intact(scheme, Select(rows, org));
    RemovedExactly(scheme, Select(rows, org), k, Select(rows[p := x], org));
  }

  lemma StayedExactly(scheme: Scheme, rows: seq<Event>, p: nat, k: nat, c: Covered)
    requires scheme.Ideal() && AllIntact(scheme, rows) && p < |rows|
    requires c != rows[p].covered && c.organizationId == rows[p].covered.organizationId
    requires var chain := Select(rows, c.organizationId); k < |chain| && chain[k] == rows[p]
    ensures Intact(scheme, Select(rows[p := Rehashed(scheme, rows[p], c)], c.organizationId))
       <==> k + 1 == |Select(rows, c.organizationId)| && c.sequence == k + 1
  {
    var x, chain := Rehashed(scheme, rows[p], c), Select(rows, c.organizationId);
    SelectReplaced(rows, p, x, c.organizationId);
    assert Intact(scheme, chain) && Linked(scheme, chain, k);
    HashDetermines(scheme, c, rows[p].previousHash, rows[p].covered, rows[p].previousHash);
    ReplacedExactly(scheme, chain, k, x, Select(rows[p := x], c.organizationId));
  }

  /** A forger who edits one row and recomputes that row's own hash, and no other, goes unreported if and
      only if the row is the last of its chain, keeps its number, and stays in its organization or moves,
      as the only row of its chain, to an organization that has none. */
  lemma RehashedExactly(scheme: Scheme, rows: seq<Event>, p: nat, c: Covered)
    requires scheme.Ideal() && AllIntact(scheme, rows) && p < |rows| && c != rows[p].covered
    ensures var org := rows[p].covered.organizationId;
            var n := |Select(rows, org)|;
            AllIntact(scheme, rows[p := Rehashed(scheme, rows[p], c)])
            <==> && c.sequence == rows[p].covered.sequence == n
                 && (c.organizationId == org || (n == 1 && Select(rows, c.organizationId) == []))
  {
    var x := Rehashed(scheme, rows[p], c);
    var k := PlaceInChain(scheme, rows, p);
    OtherChainsKept(scheme, rows, p, x);
    if c.organizationId == rows[p].covered.organizationId {
      StayedExactly(scheme, rows, p, k, c);
    } else {
      LeftExactly(scheme, rows, p, k, x);
      JoinedExactly(scheme, rows, p, k, c);
    }
  }

  /** Within its organization, such an edit of an earlier row shows at the next row, and nowhere else. */
  lemma RehashedAlone(scheme: Scheme, rows: seq<Event>, p: nat, c: Covered)
    requires scheme.Ideal() && AllIntact(scheme, rows) && p < |rows| && c != rows[p].covered
    requires c.organizationId == rows[p].covered.organizationId && c.sequence == rows[p].covered.sequence
    requires c.sequence < |Select(rows, c.organizationId)|
    ensures var chain, n := Select(rows, c.organizationId), c.sequence;
            && n >= 1
            && Report(scheme, Select(rows[p := Rehashed(scheme, rows[p], c)], c.organizationId))
               == [ChainBreak(n + 1, chain[n].id, NotLinked)]
  {
    var x, chain := Rehashed(scheme, rows[p], c), Select(rows, c.organizationId);
    var k := PlaceInChain(scheme, rows, p);
    SelectReplaced(rows, p, x, c.organizationId);
    ReplacedInPlace(scheme, chain, k, x, Select(rows[p := x], c.organizationId));
    RehashedEventReported(scheme, chain, k, c);
  }
}
