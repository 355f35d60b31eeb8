/**
 Row cleaning (data/cleaning.py), second part: duplicates and order. The loop keeps a table of seen
 keys, a high-water mark per instrument and a list it pops from; `AdmittedExactly` says, without any
 of those, which bars survive under every policy.
 */
module DuplicatesAndOrder {
  import opened RowExamination

  /** Where the loop is: the rows kept so far, its two look-up tables, and the complete logs. */
  datatype Acc = Acc(
    rows: seq<Bar>, seen: map<Key, nat>, last: map<string, int>,
    rejections: seq<Rejection>, changes: seq<Change>, inputs: nat, fatal: bool)

  const EMPTY := Acc([], map[], map[], [], [], 0, false)

  /** `result.rows.pop(position)` at the first row with the key. */
  function PopKey(rows: seq<Bar>, key: Key): seq<Bar> {
    if rows == [] then []
    else if KeyOf(rows[0]) == key then rows[1..]
    else [rows[0]] + PopKey(rows[1..], key)
  }

  ghost predicate HasKey(rows: seq<Bar>, key: Key) {
    exists i :: 0 <= i < |rows| && KeyOf(rows[i]) == key
  }

  /** What the loop does with one valid bar. */
  function Admit(a: Acc, b: Bar, p: Policy): Acc {
    var key := KeyOf(b);
    if key in a.seen && p.duplicates == RejectDataset then a.(fatal := true, rows := [])
    else if key in a.seen && p.duplicates == KeepFirst then
      a.(rejections := a.rejections + [Rejection(b.line, Duplicate)])
    else
      var rows := if key in a.seen then PopKey(a.rows, key) else a.rows;
      var changes := if |rows| < |a.rows| then a.changes + [Change(a.seen[key], DroppedDuplicate)] else a.changes;
      if b.symbol in a.last && b.timestamp < a.last[b.symbol] && p.dropOutOfOrder then
        a.(rows := rows, changes := changes, rejections := a.rejections + [Rejection(b.line, OutOfOrder)])
      else
        a.(rows := rows + [b], changes := changes, seen := a.seen[key := b.line],
           last := a.last[b.symbol := if b.symbol in a.last && b.timestamp < a.last[b.symbol]
                                      then a.last[b.symbol] else b.timestamp])
  }

  /** The first `n` of these valid bars, one after another; a refused dataset stops the loop. */
  function Admitted(bars: seq<Bar>, p: Policy, n: nat): Acc
    requires n <= |bars|
  {
    if n == 0 then EMPTY
    else
      var a := Admitted(bars, p, n - 1);
      if a.fatal then a else Admit(a, bars[n - 1], p)
  }

  // ----- what is kept -----

  /** No earlier bar of the same instrument is later in time. */
  ghost predicate InOrder(bars: seq<Bar>, i: nat)
    requires i < |bars|
  {
    forall j :: 0 <= j < i && bars[j].symbol == bars[i].symbol ==> bars[j].timestamp <= bars[i].timestamp
  }

  /** Which of the first `n` bars survive: those in order (if the policy asks for it) that are the first
      of their key, or under KEEP_LAST the last. */
  ghost predicate Survives(bars: seq<Bar>, p: Policy, n: nat, i: nat)
    requires i < n <= |bars|
  {
    && (p.dropOutOfOrder ==> InOrder(bars, i))
    && (if p.duplicates == KeepLast then forall j :: i < j < n ==> KeyOf(bars[j]) != KeyOf(bars[i])
        else forall j :: 0 <= j < i ==> KeyOf(bars[j]) != KeyOf(bars[i]))
  }

  /** The survivors of the first `n` bars among the first `m`, in file order. */
  ghost function Survivors(bars: seq<Bar>, p: Policy, n: nat, m: nat): seq<Bar>
    requires m <= n <= |bars|
    decreases m
  {
    if m == 0 then []
    else Survivors(bars, p, n, m - 1) + if Survives(bars, p, n, m - 1) then [bars[m - 1]] else []
  }

  ghost predicate DistinctKeys(rows: seq<Bar>) {
    forall i, j :: 0 <= i < j < |rows| ==> KeyOf(rows[i]) != KeyOf(rows[j])
  }

  lemma HasKeyFront(rows: seq<Bar>, key: Key)
    requires rows != []
    ensures HasKey(rows, key) <==> KeyOf(rows[0]) == key || HasKey(rows[1..], key)
  {
    if HasKey(rows[1..], key) {
      var i :| 0 <= i < |rows[1..]| && KeyOf(rows[1..][i]) == key;
      assert KeyOf(rows[i + 1]) == key;
    }
  }

  lemma DistinctFront(rows: seq<Bar>)
    requires rows != []
    ensures DistinctKeys(rows) <==> DistinctKeys(rows[1..]) && !HasKey(rows[1..], KeyOf(rows[0]))
  {
    if DistinctKeys(rows[1..]) && !HasKey(rows[1..], KeyOf(rows[0])) {
      forall i, j | 0 <= i < j < |rows| ensures KeyOf(rows[i]) != KeyOf(rows[j]) {
        assert rows[j] == rows[1..][j - 1] && (i > 0 ==> rows[i] == rows[1..][i - 1]);
      }
    }
  }

  lemma {:induction false} PopKeyRemoves(rows: seq<Bar>, key: Key)
    requires DistinctKeys(rows)
    ensures DistinctKeys(PopKey(rows, key)) && !HasKey(PopKey(rows, key), key)
    ensures forall r :: r in PopKey(rows, key) ==> r in rows
    ensures |PopKey(rows, key)| == |rows| - if HasKey(rows, key) then 1 else 0
    ensures !HasKey(rows, key) ==> PopKey(rows, key) == rows
    decreases |rows|
  {
    if rows != [] {
      DistinctFront(rows);
      HasKeyFront(rows, key);
      if KeyOf(rows[0]) != key {
        PopKeyRemoves(rows[1..], key);
        PoppedBehind(rows[0], rows[1..], PopKey(rows[1..], key), key);
      }
    }
  }

  lemma NoKeyInPart(rows: seq<Bar>, part: seq<Bar>, key: Key)
    requires !HasKey(rows, key) && forall r :: r in part ==> r in rows
    ensures !HasKey(part, key)
  {
    forall i | 0 <= i < |part| ensures KeyOf(part[i]) != key {
      assert part[i] in rows;
    }
  }

  lemma PoppedBehind(first: Bar, rest: seq<Bar>, popped: seq<Bar>, key: Key)
    requires DistinctKeys(popped) && !HasKey(popped, key) && KeyOf(first) != key && !HasKey(rest, KeyOf(first))
    requires forall r :: r in popped ==> r in rest
    ensures DistinctKeys([first] + popped) && !HasKey([first] + popped, key)
  {
    assert ([first] + popped)[1..] == popped;
    NoKeyInPart(rest, popped, KeyOf(first));
    DistinctFront([first] + popped);
    HasKeyFront([first] + popped, key);
  }

  /** Bar `j` carries key `k` and its order did not reject it. */
  ghost predicate Took(bars: seq<Bar>, p: Policy, j: nat, k: Key)
    requires j < |bars|
  {
    KeyOf(bars[j]) == k && (p.dropOutOfOrder ==> InOrder(bars, j))
  }

  /** The loop's tables, said of the bars it has read. */
  ghost predicate SeenAgrees(a: Acc, bars: seq<Bar>, p: Policy, n: nat)
    requires n <= |bars|
  {
    forall k :: k in a.seen <==> exists j :: 0 <= j < n && Took(bars, p, j, k)
  }

  /** One of the first `n` bars is of this instrument and this time. */
  ghost predicate SomeAt(bars: seq<Bar>, n: nat, symbol: string, timestamp: int)
    requires n <= |bars|
  {
    exists j :: 0 <= j < n && bars[j].symbol == symbol && bars[j].timestamp == timestamp
  }

  ghost predicate LastAgrees(a: Acc, bars: seq<Bar>, n: nat)
    requires n <= |bars|
  {
    && (forall j :: 0 <= j < n ==> bars[j].symbol in a.last && bars[j].timestamp <= a.last[bars[j].symbol])
    && (forall s :: s in a.last ==> SomeAt(bars, n, s, a.last[s]))
  }

  ghost predicate RowsAgree(a: Acc) {
    DistinctKeys(a.rows) && forall r :: r in a.rows ==> KeyOf(r) in a.seen
  }

  ghost predicate TablesAgree(a: Acc, bars: seq<Bar>, p: Policy, n: nat)
    requires n <= |bars|
  {
    SeenAgrees(a, bars, p, n) && LastAgrees(a, bars, n) && RowsAgree(a)
  }

  ghost function Without(rows: seq<Bar>, key: Key): seq<Bar> {
    if rows == [] then []
    else (if KeyOf(rows[0]) == key then [] else [rows[0]]) + Without(rows[1..], key)
  }

  lemma {:induction false} WithoutAppend(rows: seq<Bar>, more: seq<Bar>, key: Key)
    ensures Without(rows + more, key) == Without(rows, key) + Without(more, key)
    decreases |rows|
  {
    if rows == [] {
      assert rows + more == more;
    } else {
      assert (rows + more)[0] == rows[0] && (rows + more)[1..] == rows[1..] + more;
      WithoutAppend(rows[1..], more, key);
    }
  }

  lemma {:induction false} WithoutAbsent(rows: seq<Bar>, key: Key)
    requires !HasKey(rows, key)
    ensures Without(rows, key) == rows
    decreases |rows|
  {
    if rows != [] {
      assert KeyOf(rows[0]) != key;
      assert forall i :: 0 <= i < |rows[1..]| ==> KeyOf(rows[1..][i]) == KeyOf(rows[i + 1]);
      WithoutAbsent(rows[1..], key);
      assert rows == [rows[0]] + rows[1..];
    }
  }

  /** Popping the first row of a key removes the key, because keys are distinct. */
  lemma {:induction false} PopIsWithout(rows: seq<Bar>, key: Key)
    requires DistinctKeys(rows)
    ensures PopKey(rows, key) == Without(rows, key)
    decreases |rows|
  {
    if rows != [] {
      assert forall i :: 0 <= i < |rows[1..]| ==> rows[1..][i] == rows[i + 1];
      if KeyOf(rows[0]) == key {
        WithoutAbsent(rows[1..], key);
      } else {
        PopIsWithout(rows[1..], key);
      }
    }
  }

  /** One more bar, under KEEP_LAST, unseats the survivor of its own key and no other. */
  lemma {:induction false} SurvivorsUnseated(bars: seq<Bar>, p: Policy, n: nat, m: nat)
    requires m < n <= |bars| && p.duplicates == KeepLast
    ensures Survivors(bars, p, n, m) == Without(Survivors(bars, p, n - 1, m), KeyOf(bars[n - 1]))
    decreases m
  {
    if m > 0 {
      var key := KeyOf(bars[n - 1]);
      SurvivorsUnseated(bars, p, n, m - 1);
      var x := if Survives(bars, p, n - 1, m - 1) then [bars[m - 1]] else [];
      WithoutAppend(Survivors(bars, p, n - 1, m - 1), x, key);
      assert Survives(bars, p, n, m - 1) <==> Survives(bars, p, n - 1, m - 1) && KeyOf(bars[m - 1]) != key;
    }
  }

  lemma {:induction false} SurvivorsSettled(bars: seq<Bar>, p: Policy, n: nat, m: nat)
    requires m < n <= |bars| && p.duplicates != KeepLast
    ensures Survivors(bars, p, n, m) == Survivors(bars, p, n - 1, m)
    decreases m
  {
    if m > 0 {
      SurvivorsSettled(bars, p, n, m - 1);
    }
  }

  /** The loop's order test is the declared one. */
  lemma LateExactly(a: Acc, bars: seq<Bar>, n: nat)
    requires n < |bars| && LastAgrees(a, bars, n)
    ensures var b := bars[n]; b.symbol in a.last && b.timestamp < a.last[b.symbol] <==> !InOrder(bars, n)
  {
  }

  /** A bar that repeats an earlier key, and is itself in order, was seen. */
  lemma SeenExactly(a: Acc, bars: seq<Bar>, p: Policy, n: nat)
    requires n < |bars| && SeenAgrees(a, bars, p, n)
    ensures KeyOf(bars[n]) in a.seen ==> exists j :: 0 <= j < n && KeyOf(bars[j]) == KeyOf(bars[n])
    ensures (p.dropOutOfOrder ==> InOrder(bars, n)) && (exists j :: 0 <= j < n && KeyOf(bars[j]) == KeyOf(bars[n])) ==>
              KeyOf(bars[n]) in a.seen
  {
    if (p.dropOutOfOrder ==> InOrder(bars, n)) && exists j :: 0 <= j < n && KeyOf(bars[j]) == KeyOf(bars[n]) {
      var j :| 0 <= j < n && KeyOf(bars[j]) == KeyOf(bars[n]);
      assert Took(bars, p, j, KeyOf(bars[n]));
    }
  }

  lemma AdmitSeen(a: Acc, b: Bar, p: Policy)
    ensures var a' := Admit(a, b, p);
            var late := b.symbol in a.last && b.timestamp < a.last[b.symbol];
            !a'.fatal ==> a'.seen.Keys == a.seen.Keys + if late && p.dropOutOfOrder then {} else {KeyOf(b)}
  {
  }

  lemma SeenAfter(a: Acc, bars: seq<Bar>, p: Policy, n: nat)
    requires n < |bars| && SeenAgrees(a, bars, p, n) && LastAgrees(a, bars, n)
    ensures var a' := Admit(a, bars[n], p); !a'.fatal ==> SeenAgrees(a', bars, p, n + 1)
  {
    var seen := Admit(a, bars[n], p).seen;
    assert Took(bars, p, n, KeyOf(bars[n])) <==> (p.dropOutOfOrder ==> InOrder(bars, n));
    LateExactly(a, bars, n);
    AdmitSeen(a, bars[n], p);
    if !Admit(a, bars[n], p).fatal {
      forall k ensures k in seen <==> exists j :: 0 <= j < n + 1 && Took(bars, p, j, k) {
        assert k in seen <==> k in seen.Keys;
        if k in a.seen {
          var j :| 0 <= j < n && Took(bars, p, j, k);
        }
      }
    }
  }

  /** What one bar does to the high-water marks: nothing, or it raises its own instrument's. */
  lemma AdmitLast(a: Acc, b: Bar, p: Policy)
    requires KeyOf(b) in a.seen ==> b.symbol in a.last && b.timestamp <= a.last[b.symbol]
    ensures var last := Admit(a, b, p).last;
            if b.symbol in a.last && b.timestamp <= a.last[b.symbol] then last == a.last
            else last == a.last[b.symbol := b.timestamp]
  {
    if b.symbol in a.last && b.timestamp <= a.last[b.symbol] {
      assert a.last[b.symbol := a.last[b.symbol]] == a.last;
    }
  }

  lemma LastRaised(last: map<string, int>, bars: seq<Bar>, n: nat, raised: map<string, int>)
    requires n < |bars|
    requires forall j :: 0 <= j < n ==> bars[j].symbol in last && bars[j].timestamp <= last[bars[j].symbol]
    requires forall s :: s in last ==> SomeAt(bars, n, s, last[s])
    requires var b := bars[n];
             if b.symbol in last && b.timestamp <= last[b.symbol] then raised == last else raised == last[b.symbol := b.timestamp]
    ensures forall j :: 0 <= j < n + 1 ==> bars[j].symbol in raised && bars[j].timestamp <= raised[bars[j].symbol]
    ensures forall s :: s in raised ==> SomeAt(bars, n + 1, s, raised[s])
  {
    forall s | s in raised ensures SomeAt(bars, n + 1, s, raised[s]) {
      assert s in last && raised[s] == last[s] ==> SomeAt(bars, n, s, last[s]);
    }
  }

  lemma LastAfter(a: Acc, bars: seq<Bar>, p: Policy, n: nat)
    requires n < |bars| && SeenAgrees(a, bars, p, n) && LastAgrees(a, bars, n)
    ensures LastAgrees(Admit(a, bars[n], p), bars, n + 1)
  {
    var b := bars[n];
    if KeyOf(b) in a.seen {
      var j :| 0 <= j < n && Took(bars, p, j, KeyOf(b));
      assert bars[j].symbol == b.symbol && bars[j].timestamp == b.timestamp;
    }
    AdmitLast(a, b, p);
    LastRaised(a.last, bars, n, Admit(a, b, p).last);
  }

  /** The rows a bar finds in its place: without its key's row, where that gives way to it. */
  function Kept(a: Acc, b: Bar, p: Policy): seq<Bar> {
    if KeyOf(b) in a.seen && p.duplicates == KeepLast then PopKey(a.rows, KeyOf(b)) else a.rows
  }

  predicate Joins(a: Acc, b: Bar, p: Policy) {
    && (KeyOf(b) in a.seen ==> p.duplicates == KeepLast)
    && !(b.symbol in a.last && b.timestamp < a.last[b.symbol] && p.dropOutOfOrder)
  }

  lemma AdmitParts(a: Acc, b: Bar, p: Policy)
    ensures var a' := Admit(a, b, p); !a'.fatal ==>
              && a'.rows == Kept(a, b, p) + (if Joins(a, b, p) then [b] else [])
              && |a'.rejections| == |a.rejections| + (if Joins(a, b, p) then 0 else 1)
              && |a'.changes| == |a.changes| + (if |Kept(a, b, p)| < |a.rows| then 1 else 0)
              && a'.seen.Keys == a.seen.Keys + (if Joins(a, b, p) then {KeyOf(b)} else {})
  {
    if !Joins(a, b, p) {
      assert Kept(a, b, p) + [] == Kept(a, b, p);
    }
  }

  /** Room is made for the bar: no row left has its key, and at most one row went. */
  lemma KeptAgrees(a: Acc, b: Bar, p: Policy)
    requires RowsAgree(a)
    ensures DistinctKeys(Kept(a, b, p)) && (forall r <- Kept(a, b, p) :: KeyOf(r) in a.seen.Keys)
    ensures Joins(a, b, p) ==> !HasKey(Kept(a, b, p), KeyOf(b))
    ensures |Kept(a, b, p)| == |a.rows| || |Kept(a, b, p)| == |a.rows| - 1
  {
    PopKeyRemoves(a.rows, KeyOf(b));
    assert KeyOf(b) !in a.seen ==> !HasKey(a.rows, KeyOf(b));
  }

  lemma RowsJoined(rows: seq<Bar>, keys: set<Key>, b: Bar)
    requires DistinctKeys(rows) && (forall r <- rows :: KeyOf(r) in keys) && !HasKey(rows, KeyOf(b))
    ensures DistinctKeys(rows + [b]) && forall r <- rows + [b] :: KeyOf(r) in keys + {KeyOf(b)}
  {
  }

  lemma RowsAfter(a: Acc, b: Bar, p: Policy)
    requires RowsAgree(a)
    ensures var a' := Admit(a, b, p); !a'.fatal ==>
              && RowsAgree(a')
              && |a'.rows| + |a'.rejections| + |a'.changes| == |a.rows| + |a.rejections| + |a.changes| + 1
  {
    var a', rows := Admit(a, b, p), Kept(a, b, p);
    AdmitParts(a, b, p);
    KeptAgrees(a, b, p);
    if Joins(a, b, p) {
      RowsJoined(rows, a.seen.Keys, b);
    } else {
      assert rows + [] == rows;
    }
    assert forall k :: k in a'.seen <==> k in a'.seen.Keys;
  }

  /** Two of the first `n` bars share a key, the earlier one having been kept. */
  ghost predicate KeptTwice(bars: seq<Bar>, p: Policy, n: nat)
    requires n <= |bars|
  {
    exists i, j :: 0 <= j < i < n && Took(bars, p, j, KeyOf(bars[i]))
  }

  lemma FatalExactly(a: Acc, bars: seq<Bar>, p: Policy, n: nat)
    requires n < |bars| && !a.fatal && SeenAgrees(a, bars, p, n)
    requires p.duplicates == RejectDataset ==> !KeptTwice(bars, p, n)
    ensures Admit(a, bars[n], p).fatal <==> p.duplicates == RejectDataset && KeptTwice(bars, p, n + 1)
  {
    if p.duplicates == RejectDataset && KeptTwice(bars, p, n + 1) {
      var i, j :| 0 <= j < i < n + 1 && Took(bars, p, j, KeyOf(bars[i]));
      assert i == n;
    }
  }

  lemma LastRows(a: Acc, b: Bar, p: Policy)
    requires p.duplicates == KeepLast && RowsAgree(a)
    ensures var late := b.symbol in a.last && b.timestamp < a.last[b.symbol];
            Admit(a, b, p).rows == Without(a.rows, KeyOf(b)) + if late && p.dropOutOfOrder then [] else [b]
  {
    PopIsWithout(a.rows, KeyOf(b));
    if KeyOf(b) !in a.seen {
      assert !HasKey(a.rows, KeyOf(b));
      WithoutAbsent(a.rows, KeyOf(b));
    }
  }

  lemma SurvivorsExtended(bars: seq<Bar>, p: Policy, n: nat)
    requires n < |bars| && p.duplicates == KeepLast
    ensures Survivors(bars, p, n + 1, n + 1)
         == Without(Survivors(bars, p, n, n), KeyOf(bars[n]))
            + if !InOrder(bars, n) && p.dropOutOfOrder then [] else [bars[n]]
  {
    SurvivorsUnseated(bars, p, n + 1, n);
    assert Survives(bars, p, n + 1, n) <==> (p.dropOutOfOrder ==> InOrder(bars, n));
  }

  lemma LastRowsExactly(a: Acc, bars: seq<Bar>, p: Policy, n: nat)
    requires n < |bars| && p.duplicates == KeepLast
    requires LastAgrees(a, bars, n) && RowsAgree(a) && a.rows == Survivors(bars, p, n, n)
    ensures Admit(a, bars[n], p).rows == Survivors(bars, p, n + 1, n + 1)
  {
    var late := bars[n].symbol in a.last && bars[n].timestamp < a.last[bars[n].symbol];
    assert late <==> !InOrder(bars, n) by { LateExactly(a, bars, n); }
    LastRows(a, bars[n], p);
    SurvivorsExtended(bars, p, n);
  }

  lemma FirstRowsExactly(a: Acc, bars: seq<Bar>, p: Policy, n: nat)
    requires n < |bars| && p.duplicates != KeepLast
    requires TablesAgree(a, bars, p, n) && a.rows == Survivors(bars, p, n, n)
    ensures var a' := Admit(a, bars[n], p); !a'.fatal ==> a'.rows == Survivors(bars, p, n + 1, n + 1)
  {
    LateExactly(a, bars, n);
    SeenExactly(a, bars, p, n);
    SurvivorsSettled(bars, p, n + 1, n);
  }

  /** What the loop has made of the first `n` bars, for every policy: it refuses the dataset exactly
      when the policy says so and a kept bar is repeated; otherwise the rows are exactly the survivors,
      and every bar read is a row, a rejection or a dropped duplicate. */
  ghost predicate Correct(a: Acc, bars: seq<Bar>, p: Policy, n: nat)
    requires n <= |bars|
  {
    && (a.fatal <==> p.duplicates == RejectDataset && KeptTwice(bars, p, n))
    && (!a.fatal ==> TablesAgree(a, bars, p, n))
    && (!a.fatal ==> a.rows == Survivors(bars, p, n, n))
    && (!a.fatal ==> n == |a.rows| + |a.rejections| + |a.changes|)
  }

  lemma CorrectAfter(a: Acc, bars: seq<Bar>, p: Policy, n: nat, next: Acc)
    requires n < |bars| && !a.fatal && Correct(a, bars, p, n) && next == Admit(a, bars[n], p)
    ensures Correct(next, bars, p, n + 1)
  {
    FatalExactly(a, bars, p, n);
    SeenAfter(a, bars, p, n);
    LastAfter(a, bars, p, n);
    RowsAfter(a, bars[n], p);
    if p.duplicates == KeepLast {
      LastRowsExactly(a, bars, p, n);
    } else {
      FirstRowsExactly(a, bars, p, n);
    }
  }

  lemma FatalRemains(a: Acc, bars: seq<Bar>, p: Policy, n: nat, next: Acc)
    requires n < |bars| && a.fatal && Correct(a, bars, p, n) && next == a
    ensures Correct(next, bars, p, n + 1)
  {
    var i, j :| 0 <= j < i < n && Took(bars, p, j, KeyOf(bars[i]));
  }

  lemma {:induction false} AdmittedExactly(bars: seq<Bar>, p: Policy, n: nat)
    requires n <= |bars|
    ensures Correct(Admitted(bars, p, n), bars, p, n)
  {
    if n == 0 {
      CorrectAtStart(bars, p);
    } else {
      AdmittedExactly(bars, p, n - 1);
      if Admitted(bars, p, n - 1).fatal {
        FatalRemains(Admitted(bars, p, n - 1), bars, p, n - 1, Admitted(bars, p, n));
      } else {
        CorrectAfter(Admitted(bars, p, n - 1), bars, p, n - 1, Admitted(bars, p, n));
      }
    }
  }

  lemma CorrectAtStart(bars: seq<Bar>, p: Policy)
    ensures Correct(EMPTY, bars, p, 0)
  {
  }

  lemma {:induction false} SurvivorsAreBars(bars: seq<Bar>, p: Policy, n: nat, m: nat)
    requires m <= n <= |bars|
    ensures forall b <- Survivors(bars, p, n, m) :: b in bars
    decreases m
  {
    if m > 0 {
      SurvivorsAreBars(bars, p, n, m - 1);
    }
  }

  // ----- readings of that result -----

  /** A bar later in time than every earlier bar of its instrument. */
  ghost predicate StrictMaximum(bars: seq<Bar>, i: nat)
    requires i < |bars|
  {
    forall j :: 0 <= j < i && bars[j].symbol == bars[i].symbol ==> bars[j].timestamp < bars[i].timestamp
  }

  ghost function Maxima(bars: seq<Bar>, m: nat): seq<Bar>
    requires m <= |bars|
  {
    if m == 0 then [] else Maxima(bars, m - 1) + if StrictMaximum(bars, m - 1) then [bars[m - 1]] else []
  }

  lemma {:induction false} FirstInOrderAreMaxima(bars: seq<Bar>, p: Policy, n: nat, m: nat)
    requires m <= n <= |bars| && p.dropOutOfOrder && p.duplicates != KeepLast
    ensures Survivors(bars, p, n, m) == Maxima(bars, m)
    decreases m
  {
    if m > 0 {
      FirstInOrderAreMaxima(bars, p, n, m - 1);
      var i := m - 1;
      if StrictMaximum(bars, i) {
        assert Survives(bars, p, n, i);
      } else {
        var j :| 0 <= j < i && bars[j].symbol == bars[i].symbol && bars[j].timestamp >= bars[i].timestamp;
        assert KeyOf(bars[j]) == KeyOf(bars[i]) || !InOrder(bars, i);
      }
    }
  }

  /** The default policy: the kept rows of each instrument are exactly the strict left-to-right maxima
      of its valid timestamps. The two look-up tables of the loop compute just that. */
  lemma DefaultKeepsMaxima(bars: seq<Bar>, p: Policy)
    requires p.dropOutOfOrder && p.duplicates == KeepFirst
    ensures Admitted(bars, p, |bars|).rows == Maxima(bars, |bars|) && !Admitted(bars, p, |bars|).fatal
  {
    AdmittedExactly(bars, p, |bars|);
    FirstInOrderAreMaxima(bars, p, |bars|, |bars|);
  }

  lemma {:induction false} SurvivorsMembers(bars: seq<Bar>, p: Policy, n: nat, m: nat, key: Key)
    requires m <= n <= |bars|
    ensures HasKey(Survivors(bars, p, n, m), key)
       <==> exists i :: 0 <= i < m && KeyOf(bars[i]) == key && Survives(bars, p, n, i)
    decreases m
  {
    if m > 0 {
      SurvivorsMembers(bars, p, n, m - 1, key);
      var s, t := Survivors(bars, p, n, m - 1), Survivors(bars, p, n, m);
      if HasKey(s, key) {
        var i :| 0 <= i < |s| && KeyOf(s[i]) == key;
        assert KeyOf(t[i]) == key;
      }
      if HasKey(t, key) {
        var i :| 0 <= i < |t| && KeyOf(t[i]) == key;
        if i < |s| { assert KeyOf(s[i]) == key; }
      }
      if KeyOf(bars[m - 1]) == key && Survives(bars, p, n, m - 1) {
        assert KeyOf(t[|t| - 1]) == key;
      }
    }
  }

  /** Under KEEP_LAST with order enforced a key of the file has a row at the end if and only if its last
      bar is in order: a late, out-of-order repetition pops the row and is then itself rejected. */
  lemma KeepLastKeepsExactly(bars: seq<Bar>, p: Policy, i: nat)
    requires i < |bars| && p.duplicates == KeepLast && p.dropOutOfOrder
    requires forall j :: i < j < |bars| ==> KeyOf(bars[j]) != KeyOf(bars[i])
    ensures HasKey(Admitted(bars, p, |bars|).rows, KeyOf(bars[i])) <==> InOrder(bars, i)
  {
    AdmittedExactly(bars, p, |bars|);
    SurvivorsMembers(bars, p, |bars|, |bars|, KeyOf(bars[i]));
    if InOrder(bars, i) {
      assert Survives(bars, p, |bars|, i);
    }
  }

  /** The late repetition, concretely: its key ends with no row at all. */
  lemma LateRepetitionLosesKey(b: Bar, later: Bar, p: Policy)
    requires p.duplicates == KeepLast && p.dropOutOfOrder
    requires b.symbol == later.symbol && b.timestamp < later.timestamp
    ensures var a := Admitted([b, later, b], p, 3);
            a.rows == [later] && a.rejections == [Rejection(b.line, OutOfOrder)] && |a.changes| == 1
  {
    var bars := [b, later, b];
    assert Admitted(bars, p, 0) == EMPTY;
    var a1 := Admit(EMPTY, b, p);
    assert Admitted(bars, p, 1) == a1 && a1.rows == [b];
    var a2 := Admit(a1, later, p);
    assert Admitted(bars, p, 2) == a2 && a2.rows == [b, later];
    assert PopKey([b, later], KeyOf(b)) == [later];
  }
}
