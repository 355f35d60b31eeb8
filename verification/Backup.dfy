/**
 The recovery backup (scripts/backup_recovery.py): stop the services that write, copy database and
 storage, start the services again, upload the bundle, apply retention, delete the local copy. Any step
 may fail, and the world goes on between any two of them.
 */
module Backup {
  import opened Wrappers

  /** The deployment: which services run, how many connections to the database there are (the services'
      own and anybody else's, all of which the script's look counts), and what the database and the
      storage hold. */
  datatype World = World(running: set<string>, clients: nat, db: int, files: int)

  /** What happens in the world by itself. */
  datatype Env =
    | Connects | Leaves                          // a connection to the database, whoever holds it
    | ClientWrites(value: int)
    | WriterWrites(value: int, stored: int)      // one of the services, over its connection
    | Starts(service: string) | Stops(service: string)

  /** A service serves a request that writes only over a connection to the database. */
  function Happens(w: World, e: Env, writers: set<string>): World {
    match e
    case Connects => w.(clients := w.clients + 1)
    case Leaves => if w.clients > 0 then w.(clients := w.clients - 1) else w
    case ClientWrites(v) => if w.clients > 0 then w.(db := v) else w
    case WriterWrites(v, f) => if w.clients > 0 && w.running * writers != {} then w.(db := v, files := f) else w
    case Starts(s) => w.(running := w.running + {s})
    case Stops(s) => w.(running := w.running - {s})
  }

  /** After the first `n` of the events. */
  function Drift(w: World, es: seq<Env>, n: nat, writers: set<string>): World
    requires n <= |es|
  {
    if n == 0 then w else Happens(Drift(w, es, n - 1, writers), es[n - 1], writers)
  }

  lemma {:induction false} DriftSplits(w: World, es: seq<Env>, more: seq<Env>, n: nat, writers: set<string>)
    requires n <= |more|
    ensures Drift(w, es + more, |es| + n, writers) == Drift(Drift(w, es, |es|, writers), more, n, writers)
    decreases n
  {
    if n == 0 {
      DriftPrefix(w, es, more, |es|, writers);
    } else {
      DriftSplits(w, es, more, n - 1, writers);
      assert (es + more)[|es| + n - 1] == more[n - 1];
    }
  }

  lemma {:induction false} DriftPrefix(w: World, es: seq<Env>, more: seq<Env>, n: nat, writers: set<string>)
    requires n <= |es|
    ensures Drift(w, es + more, n, writers) == Drift(w, es, n, writers)
    decreases n
  {
    if n > 0 {
      DriftPrefix(w, es, more, n - 1, writers);
      assert (es + more)[n - 1] == es[n - 1];
    }
  }

  // ----- one state -----

  datatype Bundle = Bundle(dump: int, storage: int)

  /** What the deployment holds after the first `n` of the events. */
  function StateAt(start: World, es: seq<Env>, n: nat, writers: set<string>): Bundle
    requires n <= |es|
  {
    Bundle(Drift(start, es, n, writers).db, Drift(start, es, n, writers).files)
  }

  /** What a capture that reports success has established: `start` is where it asked which services run
      and found no writer; after the first `h` of the events `es` and again after all of them it found no
      connection to the database; in between it read the database and then the storage. */
  ghost predicate Taken(b: Bundle, start: World, es: seq<Env>, h: nat, i: nat, j: nat, writers: set<string>) {
    && h <= i <= j <= |es| && start.running * writers == {}
    && Drift(start, es, h, writers).clients == 0 && Drift(start, es, |es|, writers).clients == 0
    && b == Bundle(Drift(start, es, i, writers).db, Drift(start, es, j, writers).files)
  }

  // ----- schedules, whatever is written -----

  /** An event but for the values it writes. */
  function Shape(e: Env): Env {
    match e
    case ClientWrites(_) => ClientWrites(0)
    case WriterWrites(_, _) => WriterWrites(0, 0)
    case _ => e
  }

  /** The same schedule, with any values written. */
  ghost predicate SameShape(es: seq<Env>, fs: seq<Env>) {
    |fs| == |es| && forall n :: 0 <= n < |es| ==> Shape(fs[n]) == Shape(es[n])
  }

  /** Event `n` is a write by a service that runs and has a connection. */
  predicate WriterWritesAt(start: World, es: seq<Env>, n: nat, writers: set<string>)
    requires n < |es|
  {
    var w := Drift(start, es, n, writers);
    es[n].WriterWrites? && w.clients > 0 && w.running * writers != {}
  }

  /** Event `n` is a write by anybody who has a connection. */
  predicate WritesAt(start: World, es: seq<Env>, n: nat, writers: set<string>)
    requires n < |es|
  {
    WriterWritesAt(start, es, n, writers) || (es[n].ClientWrites? && Drift(start, es, n, writers).clients > 0)
  }

  ghost predicate NoWriterWrites(start: World, es: seq<Env>, i: nat, j: nat, writers: set<string>)
    requires i <= j <= |es|
  {
    forall n :: i <= n < j ==> !WriterWritesAt(start, es, n, writers)
  }

  ghost predicate NobodyWrites(start: World, es: seq<Env>, h: nat, writers: set<string>) {
    forall n :: h <= n < |es| ==> !WritesAt(start, es, n, writers)
  }

  /** Who runs and who is connected does not depend on what is written. */
  lemma {:induction false} ShapeDecides(start: World, es: seq<Env>, fs: seq<Env>, n: nat, writers: set<string>)
    requires SameShape(es, fs) && n <= |es|
    ensures Drift(start, fs, n, writers).running == Drift(start, es, n, writers).running
    ensures Drift(start, fs, n, writers).clients == Drift(start, es, n, writers).clients
    decreases n
  {
    if n > 0 {
      ShapeDecides(start, es, fs, n - 1, writers);
      assert Shape(fs[n - 1]) == Shape(es[n - 1]);
    }
  }

  lemma ShapeWrites(start: World, es: seq<Env>, fs: seq<Env>, n: nat, writers: set<string>)
    requires SameShape(es, fs) && n < |es|
    ensures WriterWritesAt(start, fs, n, writers) <==> WriterWritesAt(start, es, n, writers)
    ensures WritesAt(start, fs, n, writers) <==> WritesAt(start, es, n, writers)
  {
    ShapeDecides(start, es, fs, n, writers);
    assert Shape(fs[n]) == Shape(es[n]);
  }

  lemma OneEvent(start: World, es: seq<Env>, n: nat, writers: set<string>)
    requires n < |es|
    ensures !WriterWritesAt(start, es, n, writers) ==>
              Drift(start, es, n + 1, writers).files == Drift(start, es, n, writers).files
    ensures !WritesAt(start, es, n, writers) ==> StateAt(start, es, n + 1, writers) == StateAt(start, es, n, writers)
  {
  }

  lemma {:induction false} FilesStay(start: World, es: seq<Env>, i: nat, j: nat, writers: set<string>)
    requires i <= j <= |es| && NoWriterWrites(start, es, i, j, writers)
    ensures Drift(start, es, j, writers).files == Drift(start, es, i, writers).files
    decreases j
  {
    if i < j {
      FilesStay(start, es, i, j - 1, writers);
      OneEvent(start, es, j - 1, writers);
    }
  }

  lemma {:induction false} StateStays(start: World, es: seq<Env>, h: nat, n: nat, writers: set<string>)
    requires h <= n <= |es| && NobodyWrites(start, es, h, writers)
    ensures StateAt(start, es, n, writers) == StateAt(start, es, h, writers)
    decreases n
  {
    if h < n {
      StateStays(start, es, h, n - 1, writers);
      OneEvent(start, es, n - 1, writers);
    }
  }

  // ----- a schedule that shows every write -----

  /** Each write writes what nothing before it has written. */
  function Marked(start: World, e: Env, n: nat): Env {
    match e
    case ClientWrites(_) => ClientWrites(start.db + n + 1)
    case WriterWrites(_, _) => WriterWrites(start.db + n + 1, start.files + n + 1)
    case _ => e
  }

  function MarkedAll(start: World, es: seq<Env>): (fs: seq<Env>)
    ensures |fs| == |es| && forall n :: 0 <= n < |es| ==> fs[n] == Marked(start, es[n], n)
  {
    seq(|es|, n requires 0 <= n < |es| => Marked(start, es[n], n))
  }

  ghost predicate IsMarked(start: World, fs: seq<Env>) {
    forall n :: 0 <= n < |fs| ==> fs[n] == Marked(start, fs[n], n)
  }

  lemma MarkedShape(start: World, es: seq<Env>)
    ensures SameShape(es, MarkedAll(start, es)) && IsMarked(start, MarkedAll(start, es))
  {
  }

  lemma {:induction false} MarksBound(start: World, fs: seq<Env>, n: nat, writers: set<string>)
    requires IsMarked(start, fs) && n <= |fs|
    ensures Drift(start, fs, n, writers).db <= start.db + n && Drift(start, fs, n, writers).files <= start.files + n
    decreases n
  {
    if n > 0 {
      MarksBound(start, fs, n - 1, writers);
      assert fs[n - 1] == Marked(start, fs[n - 1], n - 1);
    }
  }

  /** A write shows from then on. */
  lemma {:induction false} MarksShow(start: World, fs: seq<Env>, m: nat, n: nat, writers: set<string>)
    requires IsMarked(start, fs) && m < n <= |fs| && WritesAt(start, fs, m, writers)
    ensures Drift(start, fs, n, writers).db > start.db + m
    ensures WriterWritesAt(start, fs, m, writers) ==> Drift(start, fs, n, writers).files > start.files + m
    decreases n
  {
    assert fs[n - 1] == Marked(start, fs[n - 1], n - 1);
    if m < n - 1 {
      MarksShow(start, fs, m, n - 1, writers);
    }
  }

  // ----- one state -----

  /** The bundle is what the deployment held at some moment. */
  ghost predicate SomeState(b: Bundle, start: World, es: seq<Env>, writers: set<string>) {
    exists n :: 0 <= n <= |es| && StateAt(start, es, n, writers) == b
  }

  /** Whatever is written on this schedule, the bundle taken is one state. */
  ghost predicate AlwaysOneState(start: World, es: seq<Env>, h: nat, i: nat, j: nat, writers: set<string>) {
    forall fs, c :: SameShape(es, fs) && Taken(c, start, fs, h, i, j, writers) ==> SomeState(c, start, fs, writers)
  }

  /** And the one at the moment of the dump. */
  ghost predicate AlwaysDumpState(start: World, es: seq<Env>, h: nat, i: nat, j: nat, writers: set<string>)
    requires i <= |es|
  {
    forall fs, c :: SameShape(es, fs) && Taken(c, start, fs, h, i, j, writers) ==> c == StateAt(start, fs, i, writers)
  }

  lemma DumpStateOf(b: Bundle, start: World, es: seq<Env>, h: nat, i: nat, j: nat, writers: set<string>)
    requires Taken(b, start, es, h, i, j, writers) && NoWriterWrites(start, es, i, j, writers)
    ensures b == StateAt(start, es, i, writers)
  {
    FilesStay(start, es, i, j, writers);
  }

  /** Written over between dump and copy, with marks that tell, a bundle is of no state. */
  lemma MarkedBundleIsNoState(c: Bundle, start: World, fs: seq<Env>, h: nat, i: nat, j: nat, m: nat, writers: set<string>)
    requires Taken(c, start, fs, h, i, j, writers) && IsMarked(start, fs)
    requires i <= m < j && WriterWritesAt(start, fs, m, writers)
    ensures !SomeState(c, start, fs, writers)
  {
    MarksBound(start, fs, i, writers);
    MarksShow(start, fs, m, j, writers);
    forall n | 0 <= n <= |fs| ensures StateAt(start, fs, n, writers) != c {
      if n <= m {
        MarksBound(start, fs, n, writers);
      } else {
        MarksShow(start, fs, m, n, writers);
      }
    }
  }

  lemma TakenByShape(b: Bundle, start: World, es: seq<Env>, h: nat, i: nat, j: nat, writers: set<string>, fs: seq<Env>)
    returns (c: Bundle)
    requires Taken(b, start, es, h, i, j, writers) && SameShape(es, fs)
    ensures Taken(c, start, fs, h, i, j, writers)
  {
    ShapeDecides(start, es, fs, h, writers);
    ShapeDecides(start, es, fs, |es|, writers);
    c := Bundle(Drift(start, fs, i, writers).db, Drift(start, fs, j, writers).files);
  }

  lemma DumpStateAlways(start: World, es: seq<Env>, h: nat, i: nat, j: nat, writers: set<string>)
    requires i <= j <= |es| && NoWriterWrites(start, es, i, j, writers)
    ensures AlwaysDumpState(start, es, h, i, j, writers)
  {
    forall fs, c | SameShape(es, fs) && Taken(c, start, fs, h, i, j, writers) ensures c == StateAt(start, fs, i, writers) {
      forall n | i <= n < j ensures !WriterWritesAt(start, fs, n, writers) {
        ShapeWrites(start, es, fs, n, writers);
      }
      DumpStateOf(c, start, fs, h, i, j, writers);
    }
  }

  lemma OneStateNeeds(b: Bundle, start: World, es: seq<Env>, h: nat, i: nat, j: nat, m: nat, writers: set<string>)
    requires Taken(b, start, es, h, i, j, writers) && i <= m < j && WriterWritesAt(start, es, m, writers)
    ensures !AlwaysOneState(start, es, h, i, j, writers)
  {
    var fs := MarkedAll(start, es);
    MarkedShape(start, es);
    var c := TakenByShape(b, start, es, h, i, j, writers, fs);
    ShapeWrites(start, es, fs, m, writers);
    MarkedBundleIsNoState(c, start, fs, h, i, j, m, writers);
  }

  /** On the schedule of a successful capture, whatever is written: the bundle is always one state, and
      then always the one at the moment of the dump, if and only if no service that has a connection
      writes between the dump and the copy. */
  lemma OneStateExactly(b: Bundle, start: World, es: seq<Env>, h: nat, i: nat, j: nat, writers: set<string>)
    requires Taken(b, start, es, h, i, j, writers)
    ensures AlwaysOneState(start, es, h, i, j, writers) <==> NoWriterWrites(start, es, i, j, writers)
    ensures AlwaysDumpState(start, es, h, i, j, writers) <==> NoWriterWrites(start, es, i, j, writers)
  {
    DumpStateIsSome(start, es, h, i, j, writers);
    if NoWriterWrites(start, es, i, j, writers) {
      DumpStateAlways(start, es, h, i, j, writers);
    } else {
      var m :| i <= m < j && WriterWritesAt(start, es, m, writers);
      OneStateNeeds(b, start, es, h, i, j, m, writers);
    }
  }

  lemma DumpStateIsSome(start: World, es: seq<Env>, h: nat, i: nat, j: nat, writers: set<string>)
    requires i <= |es|
    ensures AlwaysDumpState(start, es, h, i, j, writers) ==> AlwaysOneState(start, es, h, i, j, writers)
  {
  }

  // ----- how long that state lasts -----

  /** The state in the bundle was the deployment's from the first look at its connections to the second. */
  ghost predicate Lasted(b: Bundle, start: World, es: seq<Env>, h: nat, writers: set<string>) {
    forall n :: h <= n <= |es| ==> StateAt(start, es, n, writers) == b
  }

  ghost predicate AlwaysLasts(start: World, es: seq<Env>, h: nat, i: nat, j: nat, writers: set<string>) {
    forall fs, c :: SameShape(es, fs) && Taken(c, start, fs, h, i, j, writers) ==> Lasted(c, start, fs, h, writers)
  }

  lemma LastsIfNobodyWrites(c: Bundle, start: World, es: seq<Env>, h: nat, i: nat, j: nat, writers: set<string>)
    requires Taken(c, start, es, h, i, j, writers) && NobodyWrites(start, es, h, writers)
    ensures Lasted(c, start, es, h, writers)
  {
    StateStays(start, es, h, i, writers);
    StateStays(start, es, h, j, writers);
    forall n | h <= n <= |es| ensures StateAt(start, es, n, writers) == c {
      StateStays(start, es, h, n, writers);
    }
  }

  lemma LastsNeeds(b: Bundle, start: World, es: seq<Env>, h: nat, i: nat, j: nat, m: nat, writers: set<string>)
    requires Taken(b, start, es, h, i, j, writers) && h <= m < |es| && WritesAt(start, es, m, writers)
    ensures !AlwaysLasts(start, es, h, i, j, writers)
  {
    var fs := MarkedAll(start, es);
    MarkedShape(start, es);
    var c := TakenByShape(b, start, es, h, i, j, writers, fs);
    ShapeWrites(start, es, fs, m, writers);
    MarksBound(start, fs, h, writers);
    MarksShow(start, fs, m, m + 1, writers);
    assert StateAt(start, fs, h, writers) != StateAt(start, fs, m + 1, writers);
  }

  /** On the schedule of a successful capture, whatever is written: the bundle is the deployment's state
      from the first look to the second if and only if nobody who has a connection writes in between. */
  lemma LastedExactly(b: Bundle, start: World, es: seq<Env>, h: nat, i: nat, j: nat, writers: set<string>)
    requires Taken(b, start, es, h, i, j, writers)
    ensures AlwaysLasts(start, es, h, i, j, writers) <==> NobodyWrites(start, es, h, writers)
  {
    if NobodyWrites(start, es, h, writers) {
      forall fs, c | SameShape(es, fs) && Taken(c, start, fs, h, i, j, writers) ensures Lasted(c, start, fs, h, writers) {
        forall n | h <= n < |fs| ensures !WritesAt(start, fs, n, writers) {
          ShapeWrites(start, es, fs, n, writers);
        }
        LastsIfNobodyWrites(c, start, fs, h, i, j, writers);
      }
    } else {
      var m :| h <= m < |es| && WritesAt(start, es, m, writers);
      LastsNeeds(b, start, es, h, i, j, m, writers);
    }
  }

  // ----- what the two looks guarantee -----

  /** No connection that is there is given up. */
  ghost predicate NoneLeaves(es: seq<Env>, h: nat) {
    forall n :: h <= n < |es| ==> !es[n].Leaves?
  }

  lemma {:induction false} ConnectionsOnlyCome(w: World, es: seq<Env>, h: nat, n: nat, k: nat, writers: set<string>)
    requires h <= n <= k <= |es| && NoneLeaves(es, h)
    ensures Drift(w, es, n, writers).clients <= Drift(w, es, k, writers).clients
    decreases k
  {
    if n < k {
      ConnectionsOnlyCome(w, es, h, n, k - 1, writers);
      assert !es[k - 1].Leaves?;
    }
  }

  /** If no connection is given up between the two looks, whatever starts and whoever connects, a capture
      that succeeds has the deployment's state from the first look to the second: any connection made in
      between would still have been there at the second. */
  lemma LastsUnlessOneLeaves(b: Bundle, start: World, es: seq<Env>, h: nat, i: nat, j: nat, writers: set<string>)
    requires Taken(b, start, es, h, i, j, writers) && NoneLeaves(es, h)
    ensures Lasted(b, start, es, h, writers)
  {
    forall n | h <= n < |es| ensures !WritesAt(start, es, n, writers) {
      ConnectionsOnlyCome(start, es, h, n, |es|, writers);
    }
    LastsIfNobodyWrites(b, start, es, h, i, j, writers);
  }

  /** Nobody starts a writer behind the capture's back. */
  ghost predicate NoWriterStarts(es: seq<Env>, writers: set<string>) {
    forall n :: 0 <= n < |es| ==> !(es[n].Starts? && es[n].service in writers)
  }

  lemma {:induction false} NoWriterRuns(start: World, es: seq<Env>, n: nat, writers: set<string>)
    requires n <= |es| && NoWriterStarts(es, writers) && start.running * writers == {}
    ensures Drift(start, es, n, writers).running * writers == {}
    decreases n
  {
    if n > 0 {
      NoWriterRuns(start, es, n - 1, writers);
      assert !(es[n - 1].Starts? && es[n - 1].service in writers);
    }
  }

  /** And if no service is started, the bundle is the state at the dump, however others come, write and go. */
  lemma BundleIsDumpState(b: Bundle, start: World, es: seq<Env>, h: nat, i: nat, j: nat, writers: set<string>)
    requires Taken(b, start, es, h, i, j, writers) && NoWriterStarts(es, writers)
    ensures b == StateAt(start, es, i, writers)
  {
    forall n | i <= n < j ensures !WriterWritesAt(start, es, n, writers) {
      NoWriterRuns(start, es, n, writers);
    }
    DumpStateOf(b, start, es, h, i, j, writers);
  }

  /** What goes unseen, first: a service that is started, connects, writes and is disconnected again
      between the two looks. The bundle is then of no state at all. */
  lemma WriterComesAndGoes(start: World, writers: set<string>, s: string)
    requires start.running * writers == {} && start.clients == 0 && s in writers
    ensures var es := [Starts(s), Connects, WriterWrites(start.db + 1, start.files + 1), Leaves];
            var b := Bundle(start.db, start.files + 1);
            Taken(b, start, es, 0, 0, 4, writers) && !SomeState(b, start, es, writers)
  {
    var es := [Starts(s), Connects, WriterWrites(start.db + 1, start.files + 1), Leaves];
    var started := start.(running := start.running + {s});
    assert Drift(start, es, 1, writers) == started;
    assert Drift(start, es, 2, writers) == started.(clients := 1);
    assert s in started.running * writers;
    assert Drift(start, es, 3, writers) == started.(clients := 1, db := start.db + 1, files := start.files + 1);
    assert Drift(start, es, 4, writers) == started.(db := start.db + 1, files := start.files + 1);
  }

  /** Second: a client that comes, writes and leaves between the two looks. The bundle is then the state at
      the dump, but no longer the state of the deployment. */
  lemma ClientAloneOutdates(start: World, writers: set<string>)
    requires start.running * writers == {} && start.clients == 0
    ensures var es := [Connects, ClientWrites(start.db + 1), Leaves];
            var b := Bundle(start.db, start.files);
            && Taken(b, start, es, 0, 0, 3, writers) && NoWriterStarts(es, writers)
            && Drift(start, es, 3, writers).db == start.db + 1 && !Lasted(b, start, es, 0, writers)
  {
    var es := [Connects, ClientWrites(start.db + 1), Leaves];
    assert Drift(start, es, 1, writers) == start.(clients := 1);
    assert Drift(start, es, 2, writers) == start.(clients := 1, db := start.db + 1);
    assert Drift(start, es, 3, writers) == start.(db := start.db + 1);
    assert StateAt(start, es, 3, writers) != Bundle(start.db, start.files);
  }

  // ----- what the script did -----

  datatype Action =
    | Stop(services: set<string>) | Start(services: set<string>)
    | Uploaded(bundle: nat, snapshot: int) | Saw(snapshot: int) | Retained | Removed(bundle: nat)

  /** An upload in full: the snapshot was seen before retention was applied and again after. */
  function Uploading(b: nat, snapshot: int): seq<Action> {
    [Uploaded(b, snapshot), Saw(snapshot), Retained, Saw(snapshot)]
  }

  predicate StopIsUndone(log: seq<Action>, i: nat)
    requires i < |log|
  {
    log[i].Stop? ==> i + 1 < |log| && log[i + 1] == Start(log[i].services)
  }

  predicate RemovalIsSafe(log: seq<Action>, i: nat)
    requires i < |log|
  {
    log[i].Removed? ==>
      && i >= 4 && log[i - 4].Uploaded? && log[i - 4].bundle == log[i].bundle
      && log[i - 3] == Saw(log[i - 4].snapshot) && log[i - 2] == Retained && log[i - 1] == Saw(log[i - 4].snapshot)
  }

  predicate RetentionIsSafe(log: seq<Action>, i: nat)
    requires i < |log|
  {
    log[i].Retained? ==> i >= 2 && log[i - 1].Saw? && log[i - 2].Uploaded? && log[i - 2].snapshot == log[i - 1].snapshot
  }

  ghost predicate OrderlyAt(log: seq<Action>, i: nat)
    requires i < |log|
  {
    StopIsUndone(log, i) && RemovalIsSafe(log, i) && RetentionIsSafe(log, i)
  }

  /** Every stop request is followed at once by a start request for the same services; retention is
      applied, and a bundle is removed, only after its snapshot was seen where it belongs. */
  ghost predicate Orderly(log: seq<Action>) {
    forall i :: 0 <= i < |log| ==> OrderlyAt(log, i)
  }

  lemma OrderlyBefore(log: seq<Action>, more: seq<Action>, i: nat)
    requires i < |log| && OrderlyAt(log, i)
    ensures OrderlyAt(log + more, i)
  {
    var all := log + more;
    assert all[i] == log[i];
    assert i + 1 < |log| ==> all[i + 1] == log[i + 1];
    assert i >= 2 ==> all[i - 1] == log[i - 1] && all[i - 2] == log[i - 2];
    assert i >= 4 ==> all[i - 3] == log[i - 3] && all[i - 4] == log[i - 4];
  }

  lemma OrderlyBehind(log: seq<Action>, more: seq<Action>, k: nat)
    requires k < |more| && OrderlyAt(more, k)
    ensures OrderlyAt(log + more, |log| + k)
  {
    var all, i := log + more, |log| + k;
    assert all[i] == more[k];
    assert k + 1 < |more| ==> all[i + 1] == more[k + 1];
    assert k >= 2 ==> all[i - 1] == more[k - 1] && all[i - 2] == more[k - 2];
    assert k >= 4 ==> all[i - 3] == more[k - 3] && all[i - 4] == more[k - 4];
  }

  lemma OrderlyMore(log: seq<Action>, more: seq<Action>)
    requires Orderly(log) && Orderly(more)
    ensures Orderly(log + more)
  {
    forall i | 0 <= i < |log + more| ensures OrderlyAt(log + more, i) {
      if i < |log| {
        OrderlyBefore(log, more, i);
      } else {
        OrderlyBehind(log, more, i - |log|);
      }
    }
  }

  lemma PartsAreOrderly(b: nat, snapshot: int, services: set<string>, k: nat)
    requires k <= 4
    ensures Orderly([]) && Orderly([Stop(services), Start(services)])
    ensures Orderly(Uploading(b, snapshot)[..k]) && Orderly(Uploading(b, snapshot) + [Removed(b)])
  {
    var whole, part := Uploading(b, snapshot) + [Removed(b)], Uploading(b, snapshot)[..k];
    forall i | 0 <= i < 5 ensures OrderlyAt(whole, i) {
    }
    forall i | 0 <= i < k ensures OrderlyAt(part, i) {
    }
  }

  // ----- the code's own form -----

  datatype Failure = NotReady | CaptureFailed(alsoResume: bool) | ResumeFailed | UploadFailed | RemovalFailed

  /** One bundle more than there were, under the name `id`, in both records. */
  ghost predicate Adds(id: nat, was: map<nat, Bundle>, staged: map<nat, Bundle>, before: map<nat, Bundle>, captured: map<nat, Bundle>) {
    id !in before && id in captured && captured == before[id := captured[id]] && staged == was[id := captured[id]]
  }

  class Host {
    const writers: set<string>
    const database: string
    var world: World
    var staged: map<nat, Bundle>
    var nextName: nat                        // bundle names carry a timestamp and a random part: none is used twice
    var repository: set<int>
    ghost var log: seq<Action>
    ghost var captured: map<nat, Bundle>     // every bundle ever put in place

    /** Every bundle ever captured is still staged as it was captured, or was removed, which the script
        does only as `Orderly` says. */
    ghost predicate Accounted()
      reads this
    {
      && (forall b :: b in captured ==> b < nextName && (b in staged || Removed(b) in log))
      && (forall b :: b in staged ==> b in captured && staged[b] == captured[b])
    }

    constructor (writers: set<string>, database: string, world: World)
      requires database !in writers
      ensures this.writers == writers && this.database == database && this.world == world && staged == map[] && log == []
      ensures Accounted()
    {
      this.writers, this.database, this.world := writers, database, world;
      staged, nextName, repository, log, captured := map[], 0, {}, [], map[];
    }

    /** The world goes on. */
    method Live(ghost before: seq<Env>, ghost start: World) returns (ghost es: seq<Env>)
      requires world == Drift(start, before, |before|, writers)
      modifies this`world
      ensures before <= es && world == Drift(start, es, |es|, writers)
    {
      var happened: seq<Env> := *;
      DriftSplits(start, before, happened, |happened|, writers);
      world := Drift(world, happened, |happened|, writers);
      es := before + happened;
    }

    /** The stop request: some of the services stop, and it may raise. */
    method StopServices(services: set<string>) returns (ok: bool)
      modifies this`world, this`log
      ensures log == old(log) + [Stop(services)]
    {
      log := log + [Stop(services)];
      var down: set<string> := *;
      world := world.(running := world.running - down * services);
      ok := *;
    }

    /** The dump and the copy, between two looks at the database's clients, which come after the events
        `before` since the script asked which services run. None where a step raises. */
    method ReadOut(ghost before: seq<Env>, ghost start: World)
      returns (bundle: Option<Bundle>, ghost es: seq<Env>, ghost h: nat, ghost i: nat, ghost j: nat)
      requires start.running * writers == {} && world == Drift(start, before, |before|, writers)
      modifies this`world
      ensures bundle.Some? ==> Taken(bundle.value, start, es, h, i, j, writers)
    {
      bundle, es, h, i, j := None, before, |before|, 0, 0;
      if world.clients != 0 {
        return;
      }
      es := Live(es, start);
      i := |es|;
      var dump := world.db;
      if * {
        return;                              // pg_dump, an empty dump, or the revision query
      }
      ghost var first := es;
      es := Live(es, start);
      j := |es|;
      var storage := world.files;
      if * {
        return;                              // the copy, its checksums or its archive
      }
      ghost var second := es;
      es := Live(es, start);
      KeepsPast(start, before, first, second, es);
      if world.clients != 0 {
        return;
      }
      bundle := Some(Bundle(dump, storage));
    }

    lemma KeepsPast(start: World, before: seq<Env>, first: seq<Env>, second: seq<Env>, es: seq<Env>)
      requires before <= first && first <= second && second <= es
      ensures |before| <= |first| <= |second| <= |es|
      ensures Drift(start, es, |before|, writers) == Drift(start, before, |before|, writers)
      ensures Drift(start, es, |first|, writers) == Drift(start, first, |first|, writers)
      ensures Drift(start, es, |second|, writers) == Drift(start, second, |second|, writers)
    {
      PrefixOfPrefix(first, second, es);
      PrefixOfPrefix(before, first, es);
      KeepsPrefix(start, before, es);
      KeepsPrefix(start, first, es);
      KeepsPrefix(start, second, es);
    }

    lemma PrefixOfPrefix(a: seq<Env>, b: seq<Env>, c: seq<Env>)
      requires a <= b && b <= c
      ensures a <= c
    {
    }

    lemma KeepsPrefix(start: World, first: seq<Env>, es: seq<Env>)
      requires first <= es
      ensures Drift(start, es, |first|, writers) == Drift(start, first, |first|, writers)
    {
      assert es == first + es[|first|..];
      DriftPrefix(start, first, es[|first|..], |first|, writers);
    }

    /** The `try` block: stop the writers, make sure of it, read out, put the bundle in place. */
    method Capture(services: set<string>, id: nat)
      returns (ok: bool, ghost start: World, ghost es: seq<Env>, ghost h: nat, ghost i: nat, ghost j: nat)
      requires Accounted() && id < nextName && id !in captured
      modifies this`world, this`log, this`staged, this`captured
      ensures log == if services == {} then old(log) else old(log) + [Stop(services)]
      ensures Accounted()
      ensures (!ok && staged == old(staged) && captured == old(captured)) || Adds(id, old(staged), staged, old(captured), captured)
      ensures ok ==> id in staged && Taken(staged[id], start, es, h, i, j, writers)
    {
      ok, start, es, h, i, j := false, world, [], 0, 0, 0;
      if services != {} {
        var stopped := StopServices(services);
        if !stopped {
          return;
        }
      }
      var _ := Live([], world);
      start := world;
      var remaining := world.running;
      var raises: bool := *;
      if remaining * writers != {} || database !in remaining || raises {
        return;
      }
      es := Live([], start);
      var bundle;
      bundle, es, h, i, j := ReadOut(es, start);
      raises := *;
      if bundle.None? || raises {
        return;                              // or writing the manifest raised
      }
      staged, captured := staged[id := bundle.value], captured[id := bundle.value];
      ok := *;                               // the bundle is in place; flushing the directory may still raise
    }

    /** Start what was stopped, and make sure it runs. */
    method Resume(services: set<string>) returns (ok: bool)
      modifies this`world, this`log
      ensures log == old(log) + [Start(services)]
      ensures ok ==> services <= world.running
    {
      log := log + [Start(services)];
      var up: set<string> := *;
      world := world.(running := world.running + up * services);
      if * {
        return false;
      }
      var _ := Live([], world);
      var resumed := world.running;
      return services <= resumed;
    }

    /** `_capture_bundle`. Whatever fails, the writers that were stopped are told to start again; success
        means that they run, and that the bundle was read between two looks at a database without any
        connection but the looks' own, after a look at services none of which was a writer. */
    method CaptureBundle() returns (result: Result<nat, Failure>, ghost services: set<string>,
                                    ghost start: World, ghost es: seq<Env>, ghost h: nat, ghost i: nat, ghost j: nat)
      requires Accounted()
      modifies this`world, this`log, this`staged, this`captured, this`nextName
      ensures log == old(log) || (services != {} && log == old(log) + [Stop(services), Start(services)])
      ensures Accounted()
      ensures result != Err(UploadFailed)
      ensures (staged == old(staged) && captured == old(captured)) || exists id :: Adds(id, old(staged), staged, old(captured), captured)
      ensures result.Ok? ==>
                && Adds(result.value, old(staged), staged, old(captured), captured) && services <= world.running
                && Taken(staged[result.value], start, es, h, i, j, writers)
    {
      services, start, es, h, i, j := {}, world, [], 0, 0, 0;
      if * {
        return Err(NotReady), services, start, es, h, i, j;
      }
      var initiallyRunning := world.running;
      if database !in initiallyRunning {
        return Err(NotReady), services, start, es, h, i, j;
      }
      var runningWriters := initiallyRunning * writers;
      services := runningWriters;
      var id := nextName;
      nextName := nextName + 1;
      var _ := Live([], world);
      var done;
      done, start, es, h, i, j := Capture(runningWriters, id);
      var resumed := true;
      if runningWriters != {} {
        resumed := Resume(runningWriters);
        assert old(log) + [Stop(services)] + [Start(services)] == old(log) + [Stop(services), Start(services)];
      }
      result := if !done then Err(CaptureFailed(!resumed)) else if !resumed then Err(ResumeFailed) else Ok(id);
    }

    /** `_snapshot_exists`. */
    method SnapshotExists(snapshot: int) returns (seen: bool, raised: bool)
      modifies this`log
      ensures log == if seen && !raised then old(log) + [Saw(snapshot)] else old(log)
      ensures seen ==> snapshot in repository
    {
      raised := *;
      seen := snapshot in repository;
      if seen && !raised {
        log := log + [Saw(snapshot)];
      }
    }

    /** `_upload_and_retain`: the first `k` of its four recorded steps happened, all four if it succeeded. */
    method UploadAndRetain(b: nat) returns (snapshot: int, ok: bool, ghost k: nat)
      requires b in staged
      modifies this`repository, this`log
      ensures k <= 4 && (ok ==> k == 4) && log == old(log) + Uploading(b, snapshot)[..k]
      ensures ok ==> snapshot in repository
    {
      snapshot, ok, k := *, false, 0;
      ghost var all := Uploading(b, snapshot);
      assert all[..0] == [] && all[..1] == [all[0]] && all[..2] == all[..1] + [all[1]];
      assert all[..3] == all[..2] + [all[2]] && all[..4] == all[..3] + [all[3]];
      if * {
        return;                              // the bundle fails verification, or the upload raises
      }
      repository := *;                       // the new snapshot, and whatever other hosts did
      log := log + [Uploaded(b, snapshot)];
      k := 1;
      var seen, raised := SnapshotExists(snapshot);
      if !seen || raised {
        return;
      }
      k := 2;
      var kept: set<int> := *;
      repository := repository * kept;       // retention
      if * {
        return;
      }
      log := log + [Retained];
      k := 3;
      seen, raised := SnapshotExists(snapshot);
      if !seen || raised {
        return;
      }
      k := 4;
      ok := true;
    }

    /** `_upload_pending`, and the second half of `_perform_backup`. */
    method UploadAndRemove(b: nat) returns (result: Result<int, Failure>)
      requires b in staged && Orderly(log) && Accounted()
      modifies this`repository, this`log, this`staged
      ensures Orderly(log) && old(log) <= log && Accounted()
      ensures result == Err(UploadFailed) ==> staged == old(staged)
      ensures staged == old(staged) || (staged == old(staged) - {b} && Removed(b) in log[|old(log)|..])
      ensures result.Ok? ==> b !in staged && result.value in repository
    {
      var snapshot, ok, k := UploadAndRetain(b);
      PartsAreOrderly(b, snapshot, {}, k);
      OrderlyMore(old(log), Uploading(b, snapshot)[..k]);
      if !ok {
        return Err(UploadFailed);
      }
      assert Uploading(b, snapshot)[..4] == Uploading(b, snapshot);
      OrderlyMore(old(log), Uploading(b, snapshot) + [Removed(b)]);
      assert log + [Removed(b)] == old(log) + (Uploading(b, snapshot) + [Removed(b)]);
      log := log + [Removed(b)];
      assert log[|old(log)|..] == Uploading(b, snapshot) + [Removed(b)];
      if * {
        return Err(RemovalFailed);
      }
      staged := staged - {b};
      return Ok(snapshot);
    }

    /** `_perform_backup`. A bundle whose upload fails is retained, next to all that were staged before. */
    method PerformBackup() returns (result: Result<int, Failure>)
      requires Orderly(log) && Accounted()
      modifies this
      ensures Orderly(log) && old(log) <= log && Accounted()
      ensures forall b :: b in old(captured) ==> b in captured && captured[b] == old(captured)[b]
      ensures forall b :: b in old(staged) ==> b in staged && staged[b] == old(staged)[b]
      ensures result == Err(UploadFailed) ==> exists id :: Adds(id, old(staged), staged, old(captured), captured)
      ensures result.Ok? ==> staged == old(staged) && result.value in repository
    {
      if * {
        return Err(NotReady);
      }
      var id, services, start, es, h, i, j := CaptureBundle();
      PartsAreOrderly(0, 0, services, 0);
      if services != {} {
        OrderlyMore(old(log), [Stop(services), Start(services)]);
      }
      if id.Err? {
        return Err(id.error);
      }
      result := UploadAndRemove(id.value);
    }
  }

  /** Any number of backups and retries, failing wherever they may: what the script has done stays
      orderly, and no bundle is lost: each one there was, and each one captured on the way, is still
      staged, or its removal came after its snapshot had been seen before and after retention. */
  method RunMany(host: Host, rounds: nat)
    requires Orderly(host.log) && host.Accounted()
    modifies host
    ensures Orderly(host.log) && host.Accounted()
    ensures forall b :: b in old(host.captured) ==> b in host.captured && host.captured[b] == old(host.captured)[b]
  {
    for r := 0 to rounds
      invariant Orderly(host.log) && host.Accounted()
      invariant forall b :: b in old(host.captured) ==> b in host.captured && host.captured[b] == old(host.captured)[b]
    {
      var pending: nat := *;
      if pending in host.staged {
        var _ := host.UploadAndRemove(pending);
      } else {
        var _ := host.PerformBackup();
      }
    }
  }
}
