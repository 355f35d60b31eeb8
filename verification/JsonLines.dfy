/**
 JSON Lines objects and their verified reading (common/storage.py): written line by line under a running
 digest and renamed into place, read back in two passes, the first in chunks of any size.

 The digest function, and how a row is spelled as one line of JSON, are parameters.
 */
module JsonLines {
  import opened Wrappers

  type Byte = bv8

  type Bytes = seq<Byte>

  const NEWLINE: Byte := 10

  /** What `bytes.strip()` removes. */
  predicate IsSpace(b: Byte) {
    b == 32 || 9 <= b <= 13
  }

  predicate Filled(line: Bytes) {
    exists i :: 0 <= i < |line| && !IsSpace(line[i])
  }

  /** A line is blank exactly when all of it is tabs, line feeds, vertical tabs, form feeds, carriage
      returns and spaces. */
  lemma BlankExactly(line: Bytes)
    ensures !Filled(line) <==> forall i :: 0 <= i < |line| ==> line[i] in {9, 10, 11, 12, 13, 32}
  {
    forall i | 0 <= i < |line| ensures IsSpace(line[i]) <==> line[i] in {9, 10, 11, 12, 13, 32} {
      SpaceIs(line[i]);
    }
  }

  lemma SpaceIs(b: Byte)
    ensures IsSpace(b) <==> b in {9, 10, 11, 12, 13, 32}
  {
  }

  // ----- lines -----

  function FirstNewline(s: Bytes): (i: nat)
    ensures i <= |s| && (i < |s| ==> s[i] == NEWLINE) && NEWLINE !in s[..i]
  {
    if s == [] || s[0] == NEWLINE then 0 else 1 + FirstNewline(s[1..])
  }

  /** `for line in handle`: each line with its newline, the last one perhaps without. */
  function Lines(s: Bytes): (lines: seq<Bytes>)
    decreases |s|
  {
    if s == [] then []
    else
      var i := FirstNewline(s);
      if i == |s| then [s] else [s[..i] + [NEWLINE]] + Lines(s[i + 1..])
  }

  function Flat(parts: seq<Bytes>): Bytes {
    if parts == [] then [] else Flat(parts[..|parts| - 1]) + parts[|parts| - 1]
  }

  lemma {:induction false} FlatCons(head: Bytes, rest: seq<Bytes>)
    ensures Flat([head] + rest) == head + Flat(rest)
    decreases |rest|
  {
    if rest == [] {
      assert [head] + rest == [head] && [head][..0] == [];
      assert Flat([head]) == Flat([]) + head;
    } else {
      var n := |rest| - 1;
      FlatCons(head, rest[..n]);
      assert ([head] + rest)[..n + 1] == [head] + rest[..n];
    }
  }

  /** The lines are the whole of the file. */
  lemma {:induction false} LinesAreAll(s: Bytes)
    ensures Flat(Lines(s)) == s
    decreases |s|
  {
    if s != [] {
      var i := FirstNewline(s);
      if i == |s| {
        FlatCons(s, []);
        assert [s] + [] == [s];
      } else {
        LinesAreAll(s[i + 1..]);
        FlatCons(s[..i] + [NEWLINE], Lines(s[i + 1..]));
        assert s == s[..i] + [NEWLINE] + s[i + 1..];
      }
    }
  }

  /** How many of the first `n` lines are not blank. */
  function FilledLines(lines: seq<Bytes>, n: nat): nat
    requires n <= |lines|
  {
    if n == 0 then 0 else FilledLines(lines, n - 1) + if Filled(lines[n - 1]) then 1 else 0
  }

  /** The rows of a file: its lines that are not blank. */
  function RowCount(s: Bytes): nat {
    FilledLines(Lines(s), |Lines(s)|)
  }

  // ----- the first pass, byte by byte -----

  /** Finished rows, and whether the line being read has shown any content. */
  datatype Seen = Seen(count: nat, open: bool)

  function Step(seen: Seen, b: Byte): Seen {
    if b == NEWLINE then Seen(seen.count + if seen.open then 1 else 0, false) else seen.(open := seen.open || !IsSpace(b))
  }

  function Scan(seen: Seen, s: Bytes): Seen {
    if s == [] then seen else Step(Scan(seen, s[..|s| - 1]), s[|s| - 1])
  }

  /** What a newline after `part` makes of what was seen. */
  function Ended(seen: Seen, part: Bytes): Seen {
    Seen(seen.count + if seen.open || Filled(part) then 1 else 0, false)
  }

  function Total(seen: Seen): nat {
    seen.count + if seen.open then 1 else 0
  }

  lemma {:induction false} ScanAppend(seen: Seen, a: Bytes, b: Bytes)
    ensures Scan(seen, a + b) == Scan(Scan(seen, a), b)
    decreases |b|
  {
    if b == [] {
      assert a + b == a;
    } else {
      ScanAppend(seen, a, b[..|b| - 1]);
      assert (a + b)[..|a + b| - 1] == a + b[..|b| - 1];
    }
  }

  lemma FilledOneMore(init: Bytes, last: Byte)
    ensures Filled(init + [last]) <==> Filled(init) || !IsSpace(last)
  {
    var part := init + [last];
    if Filled(init) {
      var i :| 0 <= i < |init| && !IsSpace(init[i]);
      assert part[i] == init[i];
    }
    assert part[|init|] == last;
  }

  lemma {:induction false} ScanWithin(seen: Seen, part: Bytes)
    requires NEWLINE !in part
    ensures Scan(seen, part) == Seen(seen.count, seen.open || Filled(part))
    decreases |part|
  {
    if part != [] {
      var init, last := part[..|part| - 1], part[|part| - 1];
      ScanWithin(seen, init);
      assert part == init + [last];
      FilledOneMore(init, last);
    }
  }

  lemma ScanLine(seen: Seen, part: Bytes)
    requires NEWLINE !in part
    ensures Scan(seen, part + [NEWLINE]) == Ended(seen, part)
  {
    ScanWithin(seen, part);
    assert (part + [NEWLINE])[..|part|] == part;
  }

  lemma FilledLine(part: Bytes)
    ensures Filled(part + [NEWLINE]) <==> Filled(part)
  {
    if Filled(part) {
      var i :| 0 <= i < |part| && !IsSpace(part[i]);
      assert (part + [NEWLINE])[i] == part[i];
    }
    if Filled(part + [NEWLINE]) {
      var i :| 0 <= i < |part + [NEWLINE]| && !IsSpace((part + [NEWLINE])[i]);
      assert part[i] == (part + [NEWLINE])[i];
    }
  }

  lemma {:induction false} FilledLinesCons(head: Bytes, rest: seq<Bytes>, n: nat)
    requires n <= |rest|
    ensures FilledLines([head] + rest, n + 1) == FilledLines(rest, n) + if Filled(head) then 1 else 0
    decreases n
  {
    if n == 0 {
      assert FilledLines([head] + rest, 0) == 0;
    } else {
      FilledLinesCons(head, rest, n - 1);
    }
  }

  /** Scanning a line with its newline ends it. */
  lemma ScanPast(seen: Seen, part: Bytes, rest: Bytes)
    requires NEWLINE !in part
    ensures Scan(seen, part + [NEWLINE] + rest) == Scan(Ended(seen, part), rest)
  {
    ScanLine(seen, part);
    ScanAppend(seen, part + [NEWLINE], rest);
  }

  /** The lines of a file: its first line, and those of the rest. */
  lemma LinesPast(part: Bytes, rest: Bytes)
    requires NEWLINE !in part
    ensures Lines(part + [NEWLINE] + rest) == [part + [NEWLINE]] + Lines(rest)
  {
    var s := part + [NEWLINE] + rest;
    FirstNewlineOf(part, rest);
    assert s[..|part|] == part && s[|part| + 1..] == rest;
  }

  lemma {:induction false} FirstNewlineOf(part: Bytes, rest: Bytes)
    requires NEWLINE !in part
    ensures FirstNewline(part + [NEWLINE] + rest) == |part|
    decreases |part|
  {
    if part != [] {
      FirstNewlineOf(part[1..], rest);
      assert (part + [NEWLINE] + rest)[1..] == part[1..] + [NEWLINE] + rest;
    }
  }

  /** Their number, in the same way. */
  lemma RowsPast(part: Bytes, rest: Bytes)
    requires NEWLINE !in part
    ensures RowCount(part + [NEWLINE] + rest) == RowCount(rest) + if Filled(part) then 1 else 0
  {
    LinesPast(part, rest);
    FilledLine(part);
    FilledLinesCons(part + [NEWLINE], Lines(rest), |Lines(rest)|);
  }

  lemma RowsOfOneLine(s: Bytes)
    requires s != [] && FirstNewline(s) == |s|
    ensures NEWLINE !in s && RowCount(s) == if Filled(s) then 1 else 0
  {
    assert s[..|s|] == s && [s] + [] == [s];
    FilledLinesCons(s, [], 0);
  }

  /** Cut at the first newline. */
  lemma Cut(s: Bytes) returns (part: Bytes, rest: Bytes)
    requires FirstNewline(s) < |s|
    ensures part == s[..FirstNewline(s)] && rest == s[FirstNewline(s) + 1..]
    ensures s == part + [NEWLINE] + rest && NEWLINE !in part && |rest| < |s|
  {
    part, rest := s[..FirstNewline(s)], s[FirstNewline(s) + 1..];
  }

  /** Counting byte by byte is counting the lines that are not blank. */
  lemma {:induction false} ScanCountsRows(count: nat, s: Bytes)
    ensures Total(Scan(Seen(count, false), s)) == count + RowCount(s)
    decreases |s|
  {
    if s != [] {
      if FirstNewline(s) == |s| {
        RowsOfOneLine(s);
        ScanWithin(Seen(count, false), s);
      } else {
        var part, rest := Cut(s);
        ScanPast(Seen(count, false), part, rest);
        RowsPast(part, rest);
        ScanCountsRows(Ended(Seen(count, false), part).count, rest);
      }
    }
  }

  // ----- chunks -----

  /** `chunk.split(b"\n")`. */
  function Split(chunk: Bytes): (parts: seq<Bytes>)
    ensures |parts| >= 1
    decreases |chunk|
  {
    var i := FirstNewline(chunk);
    if i == |chunk| then [chunk] else [chunk[..i]] + Split(chunk[i + 1..])
  }

  /** What the loop over the parts does to the count and the flag. */
  function Tally(seen: Seen, parts: seq<Bytes>, n: nat): Seen
    requires n <= |parts|
  {
    if n == 0 then seen else Ended(Tally(seen, parts, n - 1), parts[n - 1])
  }

  function Tallied(seen: Seen, parts: seq<Bytes>): Seen
    requires parts != []
  {
    var n := |parts| - 1;
    var before := Tally(seen, parts, n);
    before.(open := before.open || Filled(parts[n]))
  }

  lemma {:induction false} TallyCons(seen: Seen, head: Bytes, rest: seq<Bytes>, n: nat)
    requires n <= |rest|
    ensures Tally(seen, [head] + rest, n + 1) == Tally(Ended(seen, head), rest, n)
    decreases n
  {
    if n == 0 {
      assert Tally(seen, [head] + rest, 0) == seen;
    } else {
      TallyCons(seen, head, rest, n - 1);
    }
  }

  lemma TalliedCons(seen: Seen, head: Bytes, rest: seq<Bytes>)
    requires rest != []
    ensures Tallied(seen, [head] + rest) == Tallied(Ended(seen, head), rest)
  {
    TallyCons(seen, head, rest, |rest| - 1);
  }

  /** Handling a chunk part by part is scanning it byte by byte. */
  lemma {:induction false} TalliedIsScan(seen: Seen, chunk: Bytes)
    ensures Tallied(seen, Split(chunk)) == Scan(seen, chunk)
    decreases |chunk|
  {
    if FirstNewline(chunk) == |chunk| {
      assert chunk[..|chunk|] == chunk;
      ScanWithin(seen, chunk);
    } else {
      var part, rest := Cut(chunk);
      ScanPast(seen, part, rest);
      TalliedIsScan(Ended(seen, part), rest);
      TalliedCons(seen, part, Split(rest));
    }
  }

  /** The first pass over a file read in any chunks whatever: it sees the whole file, and counts exactly
      its lines that are not blank. */
  method FirstPass(chunks: seq<Bytes>) returns (hashed: Bytes, rowCount: nat)
    ensures hashed == Flat(chunks) && rowCount == RowCount(Flat(chunks))
  {
    hashed, rowCount := [], 0;
    var lineHasContent := false;
    for c := 0 to |chunks|
      invariant hashed == Flat(chunks[..c]) && Seen(rowCount, lineHasContent) == Scan(Seen(0, false), hashed)
    {
      var chunk := chunks[c];
      ghost var before := Seen(rowCount, lineHasContent);
      ScanAppend(Seen(0, false), hashed, chunk);
      TalliedIsScan(before, chunk);
      assert chunks[..c + 1] == chunks[..c] + [chunk];
      hashed := hashed + chunk;
      var parts := Split(chunk);
      for p := 0 to |parts| - 1
        invariant Seen(rowCount, lineHasContent) == Tally(before, parts, p)
      {
        if lineHasContent || Filled(parts[p]) {
          rowCount := rowCount + 1;
        }
        lineHasContent := false;
      }
      lineHasContent := lineHasContent || Filled(parts[|parts| - 1]);
    }
    assert chunks[..|chunks|] == chunks;
    if lineHasContent {
      rowCount := rowCount + 1;
    }
    ScanCountsRows(0, hashed);
  }

  // ----- rows -----

  datatype Codec<!Row> = Codec(encode: Row -> Bytes, decode: Bytes -> Option<Row>)

  /** A row is one line, not blank, and reads back as itself with its newline. */
  ghost predicate Faithful<Row(!new)>(codec: Codec<Row>) {
    forall row :: NEWLINE !in codec.encode(row) && Filled(codec.encode(row))
                  && codec.decode(codec.encode(row) + [NEWLINE]) == Some(row)
  }

  function LineOf<Row>(codec: Codec<Row>, row: Row): Bytes {
    codec.encode(row) + [NEWLINE]
  }

  function LinesOf<Row>(codec: Codec<Row>, rows: seq<Row>): (lines: seq<Bytes>)
    ensures |lines| == |rows| && forall i :: 0 <= i < |rows| ==> lines[i] == LineOf(codec, rows[i])
  {
    seq(|rows|, i requires 0 <= i < |rows| => LineOf(codec, rows[i]))
  }

  function Written<Row>(codec: Codec<Row>, rows: seq<Row>): Bytes {
    Flat(LinesOf(codec, rows))
  }

  /** What was written falls apart into exactly the lines that were written. */
  lemma {:induction false} WrittenLines<Row(!new)>(codec: Codec<Row>, rows: seq<Row>)
    requires Faithful(codec)
    ensures Lines(Written(codec, rows)) == LinesOf(codec, rows)
    decreases |rows|
  {
    if rows != [] {
      var part, rest := codec.encode(rows[0]), Written(codec, rows[1..]);
      WrittenLines(codec, rows[1..]);
      assert LinesOf(codec, rows) == [part + [NEWLINE]] + LinesOf(codec, rows[1..]);
      FlatCons(part + [NEWLINE], LinesOf(codec, rows[1..]));
      LinesPast(part, rest);
    }
  }

  /** The rows of the first `n` lines; None where one that is not blank does not parse. */
  function Parsed<Row>(codec: Codec<Row>, lines: seq<Bytes>, n: nat): Option<seq<Row>>
    requires n <= |lines|
  {
    if n == 0 then Some([])
    else
      match Parsed(codec, lines, n - 1)
      case None => None
      case Some(rows) =>
        if !Filled(lines[n - 1]) then Some(rows)
        else
          match codec.decode(lines[n - 1])
          case None => None
          case Some(row) => Some(rows + [row])
  }

  lemma {:induction false} ParsedCountsRows<Row>(codec: Codec<Row>, lines: seq<Bytes>, n: nat)
    requires n <= |lines|
    ensures Parsed(codec, lines, n).Some? ==> |Parsed(codec, lines, n).value| == FilledLines(lines, n)
    decreases n
  {
    if n > 0 {
      ParsedCountsRows(codec, lines, n - 1);
    }
  }

  lemma {:induction false} WrittenParses<Row(!new)>(codec: Codec<Row>, rows: seq<Row>, n: nat)
    requires Faithful(codec) && n <= |rows|
    ensures Parsed(codec, LinesOf(codec, rows), n) == Some(rows[..n])
    ensures FilledLines(LinesOf(codec, rows), n) == n
    decreases n
  {
    if n > 0 {
      WrittenParses(codec, rows, n - 1);
      FilledLine(codec.encode(rows[n - 1]));
      assert rows[..n] == rows[..n - 1] + [rows[n - 1]];
    }
  }

  // ----- verified reading -----

  datatype Error = Missing | Changed | WrongCount | Malformed

  type Hash = Bytes -> string

  predicate Agrees(expected: Option<nat>, count: nat) {
    expected.Some? ==> count == expected.value
  }

  /** The result, given what each of the two passes found at the key. */
  function Verified<Row>(codec: Codec<Row>, hash: Hash, sha256: string, expected: Option<nat>,
                         first: Option<Bytes>, second: Option<Bytes>): Result<seq<Row>, Error> {
    if first.None? then Err(Missing)
    else if hash(first.value) != sha256 then Err(Changed)
    else if !Agrees(expected, RowCount(first.value)) then Err(WrongCount)
    else if second.None? then Err(Missing)
    else
      var lines := Lines(second.value);
      match Parsed(codec, lines, |lines|)
      case None => Err(Malformed)
      case Some(rows) =>
        if hash(second.value) != sha256 then Err(Changed) else if !Agrees(expected, |rows|) then Err(WrongCount) else Ok(rows)
  }

  ghost predicate Injective(hash: Hash) {
    forall a, b :: hash(a) == hash(b) ==> a == b
  }

  /** Reading what `write_jsonl` wrote, under the digest and the count it returned: the read succeeds
      exactly when both passes found the bytes that were written, and then gives exactly the rows written. */
  lemma ReadsBackExactly<Row(!new)>(codec: Codec<Row>, hash: Hash, rows: seq<Row>, expected: Option<nat>,
                                    first: Option<Bytes>, second: Option<Bytes>)
    requires Faithful(codec) && Injective(hash) && Agrees(expected, |rows|)
    ensures var written := Written(codec, rows);
            var read := Verified(codec, hash, hash(written), expected, first, second);
            && (read.Ok? <==> first == Some(written) && second == Some(written))
            && (read.Ok? ==> read.value == rows)
  {
    var written := Written(codec, rows);
    WrittenLines(codec, rows);
    WrittenParses(codec, rows, |rows|);
    assert rows[..|rows|] == rows;
  }

  /** The two counts never disagree about one file: if its rows parse, there are as many as the first
      pass counted, so for an unchanged file the second count check adds nothing to the first. */
  lemma CountsAgree<Row>(codec: Codec<Row>, file: Bytes)
    ensures var lines := Lines(file);
            Parsed(codec, lines, |lines|).Some? ==> |Parsed(codec, lines, |lines|).value| == RowCount(file)
  {
    ParsedCountsRows(codec, Lines(file), |Lines(file)|);
  }

  /** `read_jsonl_verified`. `first` is the file as the first pass read it, in chunks; `second` is the
      file as the second pass found it: it may have been replaced in between. */
  method ReadVerified<Row>(codec: Codec<Row>, hash: Hash, sha256: string, expected: Option<nat>,
                           first: Option<seq<Bytes>>, second: Option<Bytes>) returns (read: Result<seq<Row>, Error>)
    ensures read == Verified(codec, hash, sha256, expected, if first.Some? then Some(Flat(first.value)) else None, second)
  {
    if first.None? {
      return Err(Missing);
    }
    var hashed, rowCount := FirstPass(first.value);
    if hash(hashed) != sha256 {
      return Err(Changed);
    }
    if expected.Some? && rowCount != expected.value {
      return Err(WrongCount);
    }
    if second.None? {
      return Err(Missing);
    }
    var lines := Lines(second.value);
    var rows: seq<Row>, parsedHashed, parsedCount := [], [], 0;
    for i := 0 to |lines|
      invariant Parsed(codec, lines, i) == Some(rows) && parsedCount == |rows| && parsedHashed == Flat(lines[..i])
    {
      assert lines[..i + 1] == lines[..i] + [lines[i]];
      parsedHashed := parsedHashed + lines[i];
      if Filled(lines[i]) {
        var row := codec.decode(lines[i]);
        if row.None? {
          MalformedStays(codec, lines, i + 1, |lines|);
          return Err(Malformed);
        }
        rows := rows + [row.value];
        parsedCount := parsedCount + 1;
      }
    }
    assert lines[..|lines|] == lines;
    LinesAreAll(second.value);
    if hash(parsedHashed) != sha256 {
      return Err(Changed);
    }
    if expected.Some? && parsedCount != expected.value {
      return Err(WrongCount);
    }
    return Ok(rows);
  }

  lemma {:induction false} MalformedStays<Row>(codec: Codec<Row>, lines: seq<Bytes>, m: nat, n: nat)
    requires m <= n <= |lines| && Parsed(codec, lines, m).None?
    ensures Parsed(codec, lines, n).None?
    decreases n
  {
    if m < n {
      MalformedStays(codec, lines, m, n - 1);
    }
  }

  /** The objects of a store, by key. */
  class Store {
    var objects: map<string, Bytes>

    constructor ()
      ensures objects == map[]
    {
      objects := map[];
    }

    /** `write_jsonl`. Anything may raise on the way; then the object at the key is the old one, whole. */
    method WriteJsonl<Row>(codec: Codec<Row>, hash: Hash, key: string, rows: seq<Row>) returns (written: Option<(string, nat)>)
      modifies this
      ensures written.None? ==> objects == old(objects)
      ensures written.Some? ==>
                && objects == old(objects)[key := Written(codec, rows)]
                && written.value == (hash(Written(codec, rows)), |rows|)
    {
      var temporary: Bytes, hashed: Bytes, count := [], [], 0;
      for i := 0 to |rows|
        invariant temporary == hashed == Flat(LinesOf(codec, rows)[..i]) && count == i
      {
        if * {
          return None;
        }
        var line := LineOf(codec, rows[i]);
        assert LinesOf(codec, rows)[..i + 1] == LinesOf(codec, rows)[..i] + [line];
        hashed := hashed + line;
        temporary := temporary + line;
        count := count + 1;
      }
      assert LinesOf(codec, rows)[..|rows|] == LinesOf(codec, rows);
      if * {
        return None;
      }
      objects := objects[key := temporary];
      return Some((hash(hashed), count));
    }
  }

  /** Write, then read in whatever chunks: the rows come back, if writing them succeeded. */
  method WriteThenRead<Row(!new)>(store: Store, codec: Codec<Row>, hash: Hash, key: string, rows: seq<Row>, chunks: seq<Bytes>)
    returns (read: Option<seq<Row>>)
    requires forall row :: NEWLINE !in codec.encode(row) && Filled(codec.encode(row))
                           && codec.decode(codec.encode(row) + [NEWLINE]) == Some(row)
    requires forall a, b :: hash(a) == hash(b) ==> a == b
    requires Flat(chunks) == Written(codec, rows)
    modifies store
    ensures read.Some? ==> read.value == rows
    ensures read.None? ==> store.objects == old(store.objects)
  {
    var written := store.WriteJsonl(codec, hash, key, rows);
    if written.None? {
      return None;
    }
    var (digest, count) := written.value;
    ReadsBackExactly(codec, hash, rows, Some(count), Some(Flat(chunks)), Some(store.objects[key]));
    var result := ReadVerified(codec, hash, digest, Some(count), Some(chunks), Some(store.objects[key]));
    return Some(result.value);
  }
}
