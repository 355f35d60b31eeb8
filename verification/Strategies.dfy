/**
 The rolling-window strategies (alphalab_bridge/strategies.py): objects that remember a window of closes
 and whether they are long, and can be captured, stored and restored between any two bars.

 Prices and quantities are decimals; what is computed from them is exact. The deviation of the bands is
 compared by its square.
 */
module Strategies {
  import opened Wrappers
  import opened Ordering
  import opened Decimals

  datatype Bar = Bar(asset: string, close: Decimal, timestamp: int)

  datatype Intent = Intent(strategy: string, instrument: string, target: Decimal, timestamp: int)

  datatype Rule = Crossover(fast: nat, slow: nat) | Bands(window: nat, entry: Decimal)

  datatype Settings = Settings(id: string, rule: Rule, quantity: Decimal)

  /** `_closes` and `_long`. */
  datatype Memory = Memory(closes: map<string, seq<Decimal>>, long: map<string, bool>)

  const BLANK := Memory(map[], map[])

  /** The bounds the registry places on the parameters, as far as the arithmetic needs them. */
  predicate Sensible(rule: Rule) {
    match rule
    case Crossover(fast, slow) => 1 <= fast < slow
    case Bands(window, entry) => window >= 1 && Value(entry) > 0.0
  }

  function Size(rule: Rule): (n: nat)
    requires Sensible(rule)
    ensures n >= 1
  {
    match rule
    case Crossover(_, slow) => slow
    case Bands(window, _) => window
  }

  // ----- the rules -----

  /** The last `n` of `s`, or all of it. */
  function Last<T>(s: seq<T>, n: nat): (r: seq<T>)
    ensures |r| == if |s| < n then |s| else n
  {
    if |s| > n then s[|s| - n..] else s
  }

  function Sum(s: seq<Decimal>): real {
    if s == [] then 0.0 else Sum(s[..|s| - 1]) + Value(s[|s| - 1])
  }

  function Mean(s: seq<Decimal>): real
    requires s != []
  {
    Sum(s) / |s| as real
  }

  function Square(x: real): (y: real)
    ensures y >= 0.0
  {
    x * x
  }

  function Squares(s: seq<Decimal>, mean: real): (sum: real)
    ensures sum >= 0.0
  {
    if s == [] then 0.0 else Squares(s[..|s| - 1], mean) + Square(Value(s[|s| - 1]) - mean)
  }

  /** The population variance. */
  function Variance(s: seq<Decimal>): (v: real)
    requires s != []
    ensures v >= 0.0
  {
    Squares(s, Mean(s)) / |s| as real
  }

  /** More than `entry` deviations below the mean, the deviation not being zero. */
  predicate FarBelow(close: real, mean: real, entry: real, variance: real) {
    variance > 0.0 && close < mean && (mean - close) * (mean - close) > (entry * entry) * variance
  }

  /** The comparison by squares is the source's comparison with the square root, whatever root that is. */
  lemma FarBelowExactly(close: real, mean: real, entry: real, variance: real, deviation: real)
    requires entry > 0.0 && deviation >= 0.0 && deviation * deviation == variance
    ensures FarBelow(close, mean, entry, variance) <==> deviation > 0.0 && close < mean - entry * deviation
  {
    var gap, width := mean - close, entry * deviation;
    assert width * width == (entry * entry) * variance by {
      assert width * width == entry * (deviation * (entry * deviation)) == entry * entry * (deviation * deviation);
    }
    if deviation == 0.0 {
      assert variance == 0.0;
    } else {
      assert variance > 0.0 && width > 0.0;
      if gap > width {
        assert gap * gap > width * gap && width * gap > width * width;
      } else if gap > 0.0 {
        assert gap * gap <= width * gap && width * gap <= width * width;
      }
    }
  }

  datatype Signal = Enter | Exit | Hold

  function Crossed(fastMean: real, slowMean: real, long: bool): Signal {
    if fastMean > slowMean && !long then Enter else if fastMean <= slowMean && long then Exit else Hold
  }

  /** What a full window says. */
  function Decide(rule: Rule, window: seq<Decimal>, close: Decimal, long: bool): Signal
    requires Sensible(rule) && |window| == Size(rule)
  {
    match rule
    case Crossover(fast, _) =>
      Crossed(Mean(Last(window, fast)), Mean(window), long)
    case Bands(_, entry) =>
      var mean := Mean(window);
      if !long && FarBelow(Value(close), mean, Value(entry), Variance(window)) then Enter
      else if long && Value(close) >= mean then Exit else Hold
  }

  // ----- one bar -----

  /** What is kept for one instrument. */
  datatype Kept = Kept(window: seq<Decimal>, long: bool)

  const NOTHING := Kept([], false)

  function KeptFor(m: Memory, asset: string): Kept {
    Kept(if asset in m.closes then m.closes[asset] else [], asset in m.long && m.long[asset])
  }

  /** The signal of a close, given what is kept for its instrument. */
  function SignalOf(s: Settings, k: Kept, close: Decimal): Signal
    requires Sensible(s.rule)
  {
    var grown := Last(k.window + [close], Size(s.rule));
    if |grown| < Size(s.rule) then Hold else Decide(s.rule, grown, close, k.long)
  }

  function Negated(d: Decimal): (n: Decimal)
    ensures Value(n) == -Value(d)
  {
    d.(unscaled := -d.unscaled)
  }

  function IntentOf(s: Settings, b: Bar, signal: Signal): seq<Intent> {
    match signal
    case Enter => [Intent(s.id, b.asset, s.quantity, b.timestamp)]
    case Exit => [Intent(s.id, b.asset, Negated(s.quantity), b.timestamp)]
    case Hold => []
  }

  function After(s: Settings, m: Memory, b: Bar): Memory
    requires Sensible(s.rule)
  {
    var k := KeptFor(m, b.asset);
    var signal := SignalOf(s, k, b.close);
    Memory(m.closes[b.asset := Last(k.window + [b.close], Size(s.rule))],
           if signal == Hold then m.long else m.long[b.asset := signal == Enter])
  }

  function Emitted(s: Settings, m: Memory, b: Bar): seq<Intent>
    requires Sensible(s.rule)
  {
    IntentOf(s, b, SignalOf(s, KeptFor(m, b.asset), b.close))
  }

  /** One bar, from the window it leaves. */
  lemma AfterIs(s: Settings, m: Memory, b: Bar, window: seq<Decimal>, signal: Signal)
    requires Sensible(s.rule) && window == Last(KeptFor(m, b.asset).window + [b.close], Size(s.rule))
    requires signal == if |window| < Size(s.rule) then Hold else Decide(s.rule, window, b.close, KeptFor(m, b.asset).long)
    ensures After(s, m, b) == Memory(m.closes[b.asset := window], if signal == Hold then m.long else m.long[b.asset := signal == Enter])
    ensures Emitted(s, m, b) == IntentOf(s, b, signal)
  {
  }

  // ----- a stream of bars -----

  datatype Ran<M> = Ran(memory: M, intents: seq<Intent>)

  /** A strategy: from what it remembers and a bar, what it remembers then and what it emits. */
  type Strategy<!M> = (M, Bar) -> Ran<M>

  /** The first `n` bars of a stream, from a given memory. */
  function Run<M>(f: Strategy<M>, m: M, bars: seq<Bar>, n: nat): Ran<M>
    requires n <= |bars|
  {
    if n == 0 then Ran(m, [])
    else
      var before := Run(f, m, bars, n - 1);
      var step := f(before.memory, bars[n - 1]);
      Ran(step.memory, before.intents + step.intents)
  }

  function RunAll<M>(f: Strategy<M>, m: M, bars: seq<Bar>): Ran<M> {
    Run(f, m, bars, |bars|)
  }

  lemma {:induction false} RunPrefix<M>(f: Strategy<M>, m: M, bars: seq<Bar>, more: seq<Bar>, n: nat)
    requires n <= |bars|
    ensures Run(f, m, bars + more, n) == Run(f, m, bars, n)
    decreases n
  {
    if n > 0 {
      RunPrefix(f, m, bars, more, n - 1);
      assert (bars + more)[n - 1] == bars[n - 1];
    }
  }

  /** A run can be cut anywhere: the second half continues from the memory the first half left. */
  lemma {:induction false} RunSplits<M>(f: Strategy<M>, m: M, bars: seq<Bar>, more: seq<Bar>, n: nat)
    requires n <= |more|
    ensures var first := RunAll(f, m, bars);
            var second := Run(f, first.memory, more, n);
            Run(f, m, bars + more, |bars| + n) == Ran(second.memory, first.intents + second.intents)
    decreases n
  {
    if n == 0 {
      RunPrefix(f, m, bars, more, |bars|);
    } else {
      RunSplits(f, m, bars, more, n - 1);
      assert (bars + more)[|bars| + n - 1] == more[n - 1];
    }
  }

  /** Stopping after `bars` and going on from the memory kept is one run. */
  lemma ResumedRun<M>(f: Strategy<M>, m: M, kept: Option<M>, bars: seq<Bar>, more: seq<Bar>)
    requires kept == Some(RunAll(f, m, bars).memory)
    ensures var first, second := RunAll(f, m, bars), RunAll(f, kept.value, more);
            RunAll(f, m, bars + more) == Ran(second.memory, first.intents + second.intents)
  {
    RunSplits(f, m, bars, more, |more|);
  }

  /** A strategy with the given settings, over its whole memory and over one instrument's part of it. */
  function Windowed(s: Settings): Strategy<Memory>
    requires Sensible(s.rule)
  {
    (m, b) => Ran(After(s, m, b), Emitted(s, m, b))
  }

  function Local(s: Settings): Strategy<Kept>
    requires Sensible(s.rule)
  {
    (k: Kept, b: Bar) =>
      var signal := SignalOf(s, k, b.close);
      Ran(Kept(Last(k.window + [b.close], Size(s.rule)), if signal == Hold then k.long else signal == Enter),
          IntentOf(s, b, signal))
  }

  // ----- declared state -----

  const STATE_VERSION := 1

  datatype Parameters =
    | CrossoverParameters(fast: nat, slow: nat, quantity: string)
    | BandsParameters(window: nat, entry: string, quantity: string)
    | HoldParameters(quantity: string)

  function ParametersOf(s: Settings): Parameters {
    match s.rule
    case Crossover(fast, slow) => CrossoverParameters(fast, slow, Canonical(s.quantity))
    case Bands(window, entry) => BandsParameters(window, Canonical(entry), Canonical(s.quantity))
  }

  datatype Payload = Payload(parameters: Parameters, closes: map<string, seq<string>>, long: map<string, bool>)

  function Printed(window: seq<Decimal>): (texts: seq<string>)
    ensures |texts| == |window| && forall i :: 0 <= i < |window| ==> texts[i] == Text(window[i])
  {
    seq(|window|, i requires 0 <= i < |window| => Text(window[i]))
  }

  function Parsed(texts: seq<string>): (window: seq<Decimal>)
    ensures |window| == |texts| && forall i :: 0 <= i < |texts| ==> window[i] == Read(texts[i])
  {
    seq(|texts|, i requires 0 <= i < |texts| => Read(texts[i]))
  }

  function Captured(s: Settings, m: Memory): Payload {
    Payload(ParametersOf(s), map a | a in m.closes :: Printed(m.closes[a]), m.long)
  }

  /** The memory restored, or None where the payload is refused. None stands for a payload that is no object. */
  function Restored(s: Settings, payload: Option<Payload>, version: int): Option<Memory> {
    if version != STATE_VERSION || payload.None? || payload.value.parameters != ParametersOf(s) then None
    else Some(Memory(map a | a in payload.value.closes :: Parsed(payload.value.closes[a]), payload.value.long))
  }

  lemma PrintedIsParsed(window: seq<Decimal>)
    ensures Parsed(Printed(window)) == window
  {
    forall i | 0 <= i < |window| ensures Parsed(Printed(window))[i] == window[i] {
      TextReadBack(window[i]);
    }
  }

  /** The same parameters, however they are spelled. */
  predicate SameParameters(s: Settings, other: Settings) {
    && Value(s.quantity) == Value(other.quantity)
    && match s.rule
       case Crossover(_, _) => s.rule == other.rule
       case Bands(window, entry) => other.rule.Bands? && other.rule.window == window && Value(other.rule.entry) == Value(entry)
  }

  lemma ParametersExactly(s: Settings, other: Settings)
    ensures ParametersOf(s) == ParametersOf(other) <==> SameParameters(s, other)
  {
    CanonicalExactly(s.quantity, other.quantity);
    if s.rule.Bands? && other.rule.Bands? {
      CanonicalExactly(s.rule.entry, other.rule.entry);
    }
  }

  lemma ClosesReadBack(closes: map<string, seq<Decimal>>)
    ensures var texts := map a | a in closes :: Printed(closes[a]);
            (map a | a in texts :: Parsed(texts[a])) == closes
  {
    forall a | a in closes ensures Parsed(Printed(closes[a])) == closes[a] {
      PrintedIsParsed(closes[a]);
    }
  }

  /** A captured state is restored exactly, digit for digit, and only into an instance with the same parameters. */
  lemma RestoreExactly(s: Settings, m: Memory, other: Settings, version: int)
    ensures var restored := Restored(other, Some(Captured(s, m)), version);
            && (restored.Some? <==> version == STATE_VERSION && SameParameters(s, other))
            && (restored.Some? ==> restored.value == m)
  {
    ParametersExactly(s, other);
    ClosesReadBack(m.closes);
  }

  /** Stopping is invisible: at any point of any stream, capturing the state, restoring it into a fresh
      instance with the same parameters and feeding the rest gives the intents and the final memory of
      the run that never stopped. */
  lemma ResumeIsInvisible(s: Settings, bars: seq<Bar>, more: seq<Bar>)
    requires Sensible(s.rule)
    ensures var first := RunAll(Windowed(s), BLANK, bars);
            var restored := Restored(s, Some(Captured(s, first.memory)), STATE_VERSION);
            && restored.Some?
            && var second := RunAll(Windowed(s), restored.value, more);
            && RunAll(Windowed(s), BLANK, bars + more) == Ran(second.memory, first.intents + second.intents)
  {
    var stopped := RunAll(Windowed(s), BLANK, bars).memory;
    RestoreExactly(s, stopped, s, STATE_VERSION);
    ResumedRun(Windowed(s), BLANK, Restored(s, Some(Captured(s, stopped)), STATE_VERSION), bars, more);
  }

  /** The same intent, its target spelled perhaps differently. */
  predicate Alike(x: Intent, y: Intent) {
    x.(target := y.target) == y && Value(x.target) == Value(y.target)
  }

  ghost predicate AllAlike(xs: seq<Intent>, ys: seq<Intent>) {
    |xs| == |ys| && forall i :: 0 <= i < |xs| ==> Alike(xs[i], ys[i])
  }

  /** Two instances of one strategy whose parameters are the same numbers. */
  predicate Twins(s: Settings, other: Settings) {
    s.id == other.id && SameParameters(s, other) && Sensible(s.rule) && Sensible(other.rule)
  }

  lemma SignalOfTwin(s: Settings, other: Settings, k: Kept, close: Decimal)
    requires Twins(s, other)
    ensures SignalOf(s, k, close) == SignalOf(other, k, close) && Size(s.rule) == Size(other.rule)
  {
  }

  lemma StepOfTwin(s: Settings, other: Settings, m: Memory, b: Bar)
    requires Twins(s, other)
    ensures AlikeAt(Windowed(s), Windowed(other), m, b)
  {
    var k := KeptFor(m, b.asset);
    SignalOfTwin(s, other, k, b.close);
    var window, signal := Last(k.window + [b.close], Size(s.rule)), SignalOf(s, k, b.close);
    AfterIs(s, m, b, window, signal);
    AfterIs(other, m, b, window, signal);
    IntentOfTwin(s, other, b, signal);
  }

  lemma IntentOfTwin(s: Settings, other: Settings, b: Bar, signal: Signal)
    requires s.id == other.id && Value(s.quantity) == Value(other.quantity)
    ensures AllAlike(IntentOf(s, b, signal), IntentOf(other, b, signal))
  {
  }

  ghost predicate AlikeAt(f: Strategy<Memory>, g: Strategy<Memory>, m: Memory, b: Bar) {
    f(m, b).memory == g(m, b).memory && AllAlike(f(m, b).intents, g(m, b).intents)
  }

  lemma {:induction false} RunAlike(f: Strategy<Memory>, g: Strategy<Memory>, m: Memory, bars: seq<Bar>, n: nat)
    requires n <= |bars| && forall k, b :: AlikeAt(f, g, k, b)
    ensures Run(f, m, bars, n).memory == Run(g, m, bars, n).memory
    ensures AllAlike(Run(f, m, bars, n).intents, Run(g, m, bars, n).intents)
    decreases n
  {
    if n > 0 {
      RunAlike(f, g, m, bars, n - 1);
      var before, also := Run(f, m, bars, n - 1), Run(g, m, bars, n - 1);
      assert AlikeAt(f, g, before.memory, bars[n - 1]);
      AlikeMore(before.intents, also.intents, f(before.memory, bars[n - 1]).intents, g(before.memory, bars[n - 1]).intents);
    }
  }

  lemma AlikeMore(us: seq<Intent>, vs: seq<Intent>, xs: seq<Intent>, ys: seq<Intent>)
    requires AllAlike(us, vs) && AllAlike(xs, ys)
    ensures AllAlike(us + xs, vs + ys)
  {
  }

  lemma RunOfTwin(s: Settings, other: Settings, m: Memory, bars: seq<Bar>)
    requires Twins(s, other)
    ensures RunAll(Windowed(s), m, bars).memory == RunAll(Windowed(other), m, bars).memory
    ensures AllAlike(RunAll(Windowed(s), m, bars).intents, RunAll(Windowed(other), m, bars).intents)
  {
    forall k, b ensures AlikeAt(Windowed(s), Windowed(other), k, b) {
      StepOfTwin(s, other, k, b);
    }
    RunAlike(Windowed(s), Windowed(other), m, bars, |bars|);
  }

  /** Nor does it matter how the resuming instance's parameters are spelled: restoring accepts every
      spelling of the same numbers, and the run goes on as if never stopped. */
  lemma RespelledResumeIsInvisible(s: Settings, other: Settings, bars: seq<Bar>, more: seq<Bar>)
    requires Twins(s, other)
    ensures var first := RunAll(Windowed(s), BLANK, bars);
            var restored := Restored(other, Some(Captured(s, first.memory)), STATE_VERSION);
            && restored.Some?
            && var second, whole := RunAll(Windowed(other), restored.value, more), RunAll(Windowed(s), BLANK, bars + more);
            && whole.memory == second.memory && AllAlike(whole.intents, first.intents + second.intents)
  {
    var first := RunAll(Windowed(s), BLANK, bars);
    RestoreExactly(s, first.memory, other, STATE_VERSION);
    RunOfTwin(s, other, first.memory, more);
    ResumedRun(Windowed(s), BLANK, Some(first.memory), bars, more);
    AlikeMore(first.intents, first.intents, RunAll(Windowed(s), first.memory, more).intents,
              RunAll(Windowed(other), first.memory, more).intents);
  }

  // ----- instruments do not interfere -----

  /** The bars of one instrument among the first `n`. */
  function Own(bars: seq<Bar>, asset: string, n: nat): (own: seq<Bar>)
    requires n <= |bars|
    ensures forall i :: 0 <= i < |own| ==> own[i].asset == asset
  {
    if n == 0 then [] else if bars[n - 1].asset == asset then Own(bars, asset, n - 1) + [bars[n - 1]] else Own(bars, asset, n - 1)
  }

  /** The intents for one instrument. */
  function Of(intents: seq<Intent>, asset: string): (own: seq<Intent>)
    ensures forall i :: 0 <= i < |own| ==> own[i].instrument == asset
  {
    if intents == [] then []
    else
      var last := intents[|intents| - 1];
      Of(intents[..|intents| - 1], asset) + if last.instrument == asset then [last] else []
  }

  lemma OfOneMore(intents: seq<Intent>, more: seq<Intent>, asset: string)
    requires |more| <= 1
    ensures Of(intents + more, asset) == Of(intents, asset) + if more != [] && more[0].instrument == asset then more else []
  {
    if more == [] {
      assert intents + more == intents;
    } else {
      assert (intents + more)[..|intents|] == intents && more == [more[0]];
    }
  }

  /** On this bar `f` reads and changes only its instrument's view, as `g` does, and emits at most one
      intent, for that instrument. */
  ghost predicate SeparatesAt<M(!new), V(!new)>(f: Strategy<M>, g: Strategy<V>, view: (M, string) -> V, m: M, b: Bar) {
    var whole, own := f(m, b), g(view(m, b.asset), b);
    && view(whole.memory, b.asset) == own.memory && whole.intents == own.intents
    && (forall a :: a != b.asset ==> view(whole.memory, a) == view(m, a))
    && |own.intents| <= 1 && (own.intents != [] ==> own.intents[0].instrument == b.asset)
  }

  /** `f` treats each instrument on its own. */
  ghost predicate Separates<M(!new), V(!new)>(f: Strategy<M>, g: Strategy<V>, view: (M, string) -> V) {
    forall m, b :: SeparatesAt(f, g, view, m, b)
  }

  /** Seen for `asset`, the run `r` of the whole stream is the run `alone` of its own bars. */
  ghost predicate SeenAs<M(!new), V(!new)>(view: (M, string) -> V, asset: string, r: Ran<M>, alone: Ran<V>) {
    view(r.memory, asset) == alone.memory && Of(r.intents, asset) == alone.intents
  }

  lemma SeenOneMore<M(!new), V(!new)>(f: Strategy<M>, g: Strategy<V>, view: (M, string) -> V, asset: string,
                                      r: Ran<M>, alone: Ran<V>, b: Bar)
    requires SeenAs(view, asset, r, alone) && SeparatesAt(f, g, view, r.memory, b)
    ensures var step, own := f(r.memory, b), g(alone.memory, b);
            SeenAs(view, asset, Ran(step.memory, r.intents + step.intents),
                   if b.asset == asset then Ran(own.memory, alone.intents + own.intents) else alone)
  {
    OfOneMore(r.intents, f(r.memory, b).intents, asset);
  }

  lemma RunOneMore<M>(f: Strategy<M>, m: M, bars: seq<Bar>, b: Bar)
    ensures var before := RunAll(f, m, bars);
            var step := f(before.memory, b);
            RunAll(f, m, bars + [b]) == Ran(step.memory, before.intents + step.intents)
  {
    RunPrefix(f, m, bars, [b], |bars|);
    assert (bars + [b])[|bars|] == b;
  }

  lemma {:induction false} RunSeparates<M(!new), V(!new)>(f: Strategy<M>, g: Strategy<V>, view: (M, string) -> V,
                                                          m: M, bars: seq<Bar>, asset: string, n: nat)
    requires n <= |bars| && Separates(f, g, view)
    ensures SeenAs(view, asset, Run(f, m, bars, n), RunAll(g, view(m, asset), Own(bars, asset, n)))
    decreases n
  {
    if n > 0 {
      RunSeparates(f, g, view, m, bars, asset, n - 1);
      var b, own := bars[n - 1], Own(bars, asset, n - 1);
      assert SeparatesAt(f, g, view, Run(f, m, bars, n - 1).memory, b);
      SeenOneMore(f, g, view, asset, Run(f, m, bars, n - 1), RunAll(g, view(m, asset), own), b);
      RunOneMore(g, view(m, asset), own, b);
    }
  }

  lemma {:induction false} OwnOfOwn(bars: seq<Bar>, asset: string, n: nat)
    requires n <= |bars| && forall i :: 0 <= i < |bars| ==> bars[i].asset == asset
    ensures Own(bars, asset, n) == bars[..n]
    decreases n
  {
    if n > 0 {
      OwnOfOwn(bars, asset, n - 1);
    }
  }

  lemma WindowedSeparates(s: Settings)
    requires Sensible(s.rule)
    ensures Separates(Windowed(s), Local(s), KeptFor)
  {
    forall m, b ensures SeparatesAt(Windowed(s), Local(s), KeptFor, m, b) {
      WindowedSeparatesAt(s, m, b);
    }
  }

  lemma WindowedSeparatesAt(s: Settings, m: Memory, b: Bar)
    requires Sensible(s.rule)
    ensures SeparatesAt(Windowed(s), Local(s), KeptFor, m, b)
  {
    var signal := SignalOf(s, KeptFor(m, b.asset), b.close);
    AfterKeeps(m, b, Last(KeptFor(m, b.asset).window + [b.close], Size(s.rule)), signal);
  }

  /** What one bar's two assignments leave for each instrument. */
  lemma AfterKeeps(m: Memory, b: Bar, window: seq<Decimal>, signal: Signal)
    ensures var after := Memory(m.closes[b.asset := window], if signal == Hold then m.long else m.long[b.asset := signal == Enter]);
            && KeptFor(after, b.asset) == Kept(window, if signal == Hold then KeptFor(m, b.asset).long else signal == Enter)
            && forall a :: a != b.asset ==> KeptFor(after, a) == KeptFor(m, a)
  {
  }

  /** In any stream, an instrument's intents, window and flag are those of a run fed its own bars only. */
  lemma InstrumentsDoNotInterfere(s: Settings, bars: seq<Bar>, asset: string)
    requires Sensible(s.rule)
    ensures var among, alone := RunAll(Windowed(s), BLANK, bars), RunAll(Windowed(s), BLANK, Own(bars, asset, |bars|));
            && Of(among.intents, asset) == Of(alone.intents, asset)
            && KeptFor(among.memory, asset) == KeptFor(alone.memory, asset)
  {
    var own := Own(bars, asset, |bars|);
    WindowedSeparates(s);
    RunSeparates(Windowed(s), Local(s), KeptFor, BLANK, bars, asset, |bars|);
    RunSeparates(Windowed(s), Local(s), KeptFor, BLANK, own, asset, |own|);
    OwnOfOwn(own, asset, |own|);
    assert own[..|own|] == own;
  }

  /** The closes of the first `n` bars. */
  function Closes(bars: seq<Bar>, n: nat): (cs: seq<Decimal>)
    requires n <= |bars|
    ensures |cs| == n && forall i :: 0 <= i < n ==> cs[i] == bars[i].close
  {
    if n == 0 then [] else Closes(bars, n - 1) + [bars[n - 1].close]
  }

  ghost predicate RollsAt(g: Strategy<Kept>, size: nat, k: Kept, b: Bar) {
    g(k, b).memory.window == Last(k.window + [b.close], size)
  }

  ghost predicate Rolls(g: Strategy<Kept>, size: nat) {
    forall k, b :: RollsAt(g, size, k, b)
  }

  lemma RollsOneMore(g: Strategy<Kept>, size: nat, k: Kept, b: Bar, before: seq<Decimal>)
    requires size >= 1 && RollsAt(g, size, k, b) && k.window == Last(before, size)
    ensures g(k, b).memory.window == Last(before + [b.close], size)
  {
    LastOfLast(before, b.close, size);
  }

  lemma {:induction false} RollingWindow(g: Strategy<Kept>, size: nat, bars: seq<Bar>, n: nat)
    requires size >= 1 && Rolls(g, size) && n <= |bars|
    ensures Run(g, NOTHING, bars, n).memory.window == Last(Closes(bars, n), size)
    decreases n
  {
    if n > 0 {
      RollingWindow(g, size, bars, n - 1);
      var k := Run(g, NOTHING, bars, n - 1).memory;
      assert RollsAt(g, size, k, bars[n - 1]);
      RollsOneMore(g, size, k, bars[n - 1], Closes(bars, n - 1));
    }
  }

  lemma LastOfLast<T>(s: seq<T>, x: T, n: nat)
    requires n >= 1
    ensures Last(Last(s, n) + [x], n) == Last(s + [x], n)
  {
  }

  /** The window is exactly the instrument's last closes, as many as it holds or as there are. */
  lemma WindowIsLastCloses(s: Settings, bars: seq<Bar>, asset: string)
    requires Sensible(s.rule)
    ensures KeptFor(RunAll(Windowed(s), BLANK, bars).memory, asset).window
            == Last(Closes(Own(bars, asset, |bars|), |Own(bars, asset, |bars|)|), Size(s.rule))
  {
    var own := Own(bars, asset, |bars|);
    WindowedSeparates(s);
    RunSeparates(Windowed(s), Local(s), KeptFor, BLANK, bars, asset, |bars|);
    RollingWindow(Local(s), Size(s.rule), own, |own|);
  }

  function Total(intents: seq<Intent>): real {
    if intents == [] then 0.0 else Total(intents[..|intents| - 1]) + Value(intents[|intents| - 1].target)
  }

  /** Targets alternate, starting with a purchase. */
  ghost predicate Alternates(intents: seq<Intent>, quantity: Decimal) {
    forall i :: 0 <= i < |intents| ==> intents[i].target == if i % 2 == 0 then quantity else Negated(quantity)
  }

  /** An intent turns the flag over: a purchase only while flat, a sale only while long. */
  ghost predicate Turns(k: Kept, r: Ran<Kept>, quantity: Decimal) {
    if r.intents == [] then r.memory.long == k.long
    else r.memory.long != k.long && |r.intents| == 1 && r.intents[0].target == if k.long then Negated(quantity) else quantity
  }

  ghost predicate TogglesAt(g: Strategy<Kept>, quantity: Decimal, k: Kept, b: Bar) {
    Turns(k, g(k, b), quantity)
  }

  ghost predicate Toggles(g: Strategy<Kept>, quantity: Decimal) {
    forall k, b :: TogglesAt(g, quantity, k, b)
  }

  /** What a toggling strategy has emitted and holds after any bars. */
  ghost predicate Toggled(r: Ran<Kept>, quantity: Decimal) {
    Alternates(r.intents, quantity) && (r.memory.long <==> |r.intents| % 2 == 1) && Balanced(r, quantity)
  }

  ghost predicate Balanced(r: Ran<Kept>, quantity: Decimal) {
    Total(r.intents) == if r.memory.long then Value(quantity) else 0.0
  }

  lemma BalancedOneMore(before: Ran<Kept>, step: Ran<Kept>, quantity: Decimal)
    requires Balanced(before, quantity) && Turns(before.memory, step, quantity)
    ensures Balanced(Ran(step.memory, before.intents + step.intents), quantity)
  {
    TotalOneMore(before.intents, step.intents);
  }

  lemma ToggledOneMore(before: Ran<Kept>, step: Ran<Kept>, quantity: Decimal)
    requires Toggled(before, quantity) && Turns(before.memory, step, quantity)
    ensures Toggled(Ran(step.memory, before.intents + step.intents), quantity)
  {
    AlternatesOneMore(before.intents, step.intents, quantity, before.memory.long);
    BalancedOneMore(before, step, quantity);
  }

  lemma {:induction false} TogglesAlternate(g: Strategy<Kept>, quantity: Decimal, bars: seq<Bar>, n: nat)
    requires Toggles(g, quantity) && n <= |bars|
    ensures Toggled(Run(g, NOTHING, bars, n), quantity)
    decreases n
  {
    if n > 0 {
      TogglesAlternate(g, quantity, bars, n - 1);
      var before := Run(g, NOTHING, bars, n - 1);
      assert TogglesAt(g, quantity, before.memory, bars[n - 1]);
      ToggledOneMore(before, g(before.memory, bars[n - 1]), quantity);
    }
  }

  lemma AlternatesOneMore(intents: seq<Intent>, more: seq<Intent>, quantity: Decimal, long: bool)
    requires Alternates(intents, quantity) && (long <==> |intents| % 2 == 1)
    requires |more| <= 1 && (more != [] ==> more[0].target == if long then Negated(quantity) else quantity)
    ensures Alternates(intents + more, quantity)
  {
    forall i | 0 <= i < |intents + more|
      ensures (intents + more)[i].target == if i % 2 == 0 then quantity else Negated(quantity)
    {
      if i < |intents| {
        assert (intents + more)[i] == intents[i];
      }
    }
  }

  lemma TotalOneMore(intents: seq<Intent>, more: seq<Intent>)
    requires |more| <= 1
    ensures Total(intents + more) == Total(intents) + if more == [] then 0.0 else Value(more[0].target)
  {
    if more == [] {
      assert intents + more == intents;
    } else {
      assert (intents + more)[..|intents|] == intents;
    }
  }

  lemma EnterWhenFlat(s: Settings, k: Kept, close: Decimal)
    requires Sensible(s.rule)
    ensures SignalOf(s, k, close) == Enter ==> !k.long
    ensures SignalOf(s, k, close) == Exit ==> k.long
  {
  }

  lemma LocalToggles(s: Settings)
    requires Sensible(s.rule)
    ensures Toggles(Local(s), s.quantity)
  {
    forall k, b ensures TogglesAt(Local(s), s.quantity, k, b) {
      EnterWhenFlat(s, k, b.close);
    }
  }

  /** Each instrument's targets alternate between buying the quantity and selling it again, and add up
      to the quantity while it is long and to nothing while it is flat. */
  lemma TargetsAlternate(s: Settings, bars: seq<Bar>, asset: string)
    requires Sensible(s.rule)
    ensures var r := RunAll(Windowed(s), BLANK, bars);
            var own, long := Of(r.intents, asset), KeptFor(r.memory, asset).long;
            && Alternates(own, s.quantity) && (long <==> |own| % 2 == 1)
            && Total(own) == if long then Value(s.quantity) else 0.0
  {
    WindowedSeparates(s);
    RunSeparates(Windowed(s), Local(s), KeptFor, BLANK, bars, asset, |bars|);
    LocalToggles(s);
    TogglesAlternate(Local(s), s.quantity, Own(bars, asset, |bars|), |Own(bars, asset, |bars|)|);
  }

  // ----- buy and hold -----

  /** Buy on an instrument's first bar. */
  function Holding(id: string, quantity: Decimal): Strategy<set<string>> {
    (bought: set<string>, b: Bar) =>
      if b.asset in bought then Ran(bought, []) else Ran(bought + {b.asset}, [Intent(id, b.asset, quantity, b.timestamp)])
  }

  function HoldingOne(id: string, quantity: Decimal): Strategy<bool> {
    (bought: bool, b: Bar) => Ran(true, if bought then [] else [Intent(id, b.asset, quantity, b.timestamp)])
  }

  lemma {:induction false} OnePurchase(id: string, quantity: Decimal, own: seq<Bar>, n: nat)
    requires n <= |own|
    ensures Run(HoldingOne(id, quantity), false, own, n)
            == if n == 0 then Ran(false, []) else Ran(true, [Intent(id, own[0].asset, quantity, own[0].timestamp)])
    decreases n
  {
    if n > 0 {
      OnePurchase(id, quantity, own, n - 1);
    }
  }

  /** One purchase per instrument, at its first bar, and nothing else ever. */
  lemma BuysOnceEach(id: string, quantity: Decimal, bars: seq<Bar>, asset: string)
    ensures var own, r := Own(bars, asset, |bars|), RunAll(Holding(id, quantity), {}, bars);
            && Of(r.intents, asset) == (if own == [] then [] else [Intent(id, asset, quantity, own[0].timestamp)])
            && (asset in r.memory <==> own != [])
  {
    var view := (bought: set<string>, a: string) => a in bought;
    var own := Own(bars, asset, |bars|);
    RunSeparates(Holding(id, quantity), HoldingOne(id, quantity), view, {}, bars, asset, |bars|);
    OnePurchase(id, quantity, own, |own|);
  }

  datatype HoldPayload = HoldPayload(parameters: Parameters, bought: seq<string>)

  function HoldCaptured(quantity: Decimal, bought: set<string>): HoldPayload {
    HoldPayload(HoldParameters(Canonical(quantity)), Sorted(bought))
  }

  function HoldRestored(quantity: Decimal, payload: Option<HoldPayload>, version: int): Option<set<string>> {
    if version != STATE_VERSION || payload.None? || payload.value.parameters != HoldParameters(Canonical(quantity)) then None
    else Some(set a | a in payload.value.bought)
  }

  lemma HoldRestoreExactly(quantity: Decimal, bought: set<string>, other: Decimal, version: int)
    ensures var restored := HoldRestored(other, Some(HoldCaptured(quantity, bought)), version);
            && (restored.Some? <==> version == STATE_VERSION && Value(other) == Value(quantity))
            && (restored.Some? ==> restored.value == bought)
  {
    CanonicalExactly(quantity, other);
    assert (set a | a in Sorted(bought)) == bought;
  }

  /** Resuming a buy-and-hold run is invisible too: nothing is bought twice and nothing is missed. */
  lemma HoldResumeIsInvisible(id: string, quantity: Decimal, bars: seq<Bar>, more: seq<Bar>)
    ensures var first := RunAll(Holding(id, quantity), {}, bars);
            var restored := HoldRestored(quantity, Some(HoldCaptured(quantity, first.memory)), STATE_VERSION);
            && restored.Some?
            && var second := RunAll(Holding(id, quantity), restored.value, more);
            && RunAll(Holding(id, quantity), {}, bars + more) == Ran(second.memory, first.intents + second.intents)
  {
    var stopped := RunAll(Holding(id, quantity), {}, bars).memory;
    HoldRestoreExactly(quantity, stopped, quantity, STATE_VERSION);
    ResumedRun(Holding(id, quantity), {}, HoldRestored(quantity, Some(HoldCaptured(quantity, stopped)), STATE_VERSION), bars, more);
  }

  // ----- the code's own form -----

  /** Append a close and drop what no longer fits. */
  method Rolled(window: seq<Decimal>, close: Decimal, size: nat) returns (kept: seq<Decimal>)
    ensures kept == Last(window + [close], size)
  {
    kept := window + [close];
    if |kept| > size {
      kept := kept[|kept| - size..];
    }
  }

  class MovingAverageCrossover {
    const strategyId: string
    const fast: nat
    const slow: nat
    const quantity: Decimal
    var closes: map<string, seq<Decimal>>
    var isLong: map<string, bool>

    function Configured(): (s: Settings) {
      Settings(strategyId, Crossover(fast, slow), quantity)
    }

    function Remembered(): Memory
      reads this
    {
      Memory(closes, isLong)
    }

    constructor (strategyId: string, fast: nat, slow: nat, quantity: Decimal)
      requires fast < slow
      ensures Remembered() == BLANK && Configured() == Settings(strategyId, Crossover(fast, slow), quantity)
    {
      this.strategyId, this.fast, this.slow, this.quantity := strategyId, fast, slow, quantity;
      closes, isLong := map[], map[];
    }

    method OnBar(bar: Bar) returns (intents: seq<Intent>)
      requires Sensible(Configured().rule)
      modifies this
      ensures Remembered() == After(Configured(), old(Remembered()), bar)
      ensures intents == Emitted(Configured(), old(Remembered()), bar)
    {
      ghost var was := Remembered();
      var window := if bar.asset in closes then closes[bar.asset] else [];
      window := Rolled(window, bar.close, slow);
      closes := closes[bar.asset := window];
      if |window| < slow {
        AfterIs(Configured(), was, bar, window, Hold);
        return [];
      }
      var fastMean, slowMean := Mean(Last(window, fast)), Mean(window);
      var currentlyLong := bar.asset in isLong && isLong[bar.asset];
      AfterIs(Configured(), was, bar, window, Crossed(fastMean, slowMean, currentlyLong));
      if fastMean > slowMean && !currentlyLong {
        isLong := isLong[bar.asset := true];
        return [Intent(strategyId, bar.asset, quantity, bar.timestamp)];
      }
      if fastMean <= slowMean && currentlyLong {
        isLong := isLong[bar.asset := false];
        return [Intent(strategyId, bar.asset, Negated(quantity), bar.timestamp)];
      }
      return [];
    }

    method CaptureState() returns (payload: Payload)
      ensures payload == Captured(Configured(), Remembered())
    {
      payload := Payload(CrossoverParameters(fast, slow, Canonical(quantity)),
                         map a | a in closes :: Printed(closes[a]), isLong);
    }

    method RestoreState(payload: Option<Payload>, version: int) returns (accepted: bool)
      modifies this
      ensures accepted <==> Restored(Configured(), payload, version).Some?
      ensures Remembered() == if accepted then Restored(Configured(), payload, version).value else old(Remembered())
    {
      if version != STATE_VERSION || payload.None? || payload.value.parameters != CrossoverParameters(fast, slow, Canonical(quantity)) {
        return false;
      }
      closes := map a | a in payload.value.closes :: Parsed(payload.value.closes[a]);
      isLong := payload.value.long;
      return true;
    }
  }

  /** Constructing a crossover raises, here gives null, when the fast window is not the shorter one. */
  method BuildCrossover(strategyId: string, fast: nat, slow: nat, quantity: Decimal) returns (built: MovingAverageCrossover?)
    ensures built == null <==> fast >= slow
    ensures built != null ==>
              fresh(built) && built.Remembered() == BLANK && built.Configured() == Settings(strategyId, Crossover(fast, slow), quantity)
  {
    if fast >= slow {
      return null;
    }
    built := new MovingAverageCrossover(strategyId, fast, slow, quantity);
  }

  class MeanReversionBands {
    const strategyId: string
    const window: nat
    const entry: Decimal
    const quantity: Decimal
    var closes: map<string, seq<Decimal>>
    var isLong: map<string, bool>

    function Configured(): (s: Settings) {
      Settings(strategyId, Bands(window, entry), quantity)
    }

    function Remembered(): Memory
      reads this
    {
      Memory(closes, isLong)
    }

    constructor (strategyId: string, window: nat, entry: Decimal, quantity: Decimal)
      ensures Remembered() == BLANK && Configured() == Settings(strategyId, Bands(window, entry), quantity)
    {
      this.strategyId, this.window, this.entry, this.quantity := strategyId, window, entry, quantity;
      closes, isLong := map[], map[];
    }

    method OnBar(bar: Bar) returns (intents: seq<Intent>)
      requires Sensible(Configured().rule)
      modifies this
      ensures Remembered() == After(Configured(), old(Remembered()), bar)
      ensures intents == Emitted(Configured(), old(Remembered()), bar)
    {
      ghost var was := Remembered();
      var recent := if bar.asset in closes then closes[bar.asset] else [];
      recent := Rolled(recent, bar.close, window);
      closes := closes[bar.asset := recent];
      if |recent| < window {
        AfterIs(Configured(), was, bar, recent, Hold);
        return [];
      }
      var mean := Mean(recent);
      var variance := Variance(recent);
      var currentlyLong := bar.asset in isLong && isLong[bar.asset];
      AfterIs(Configured(), was, bar, recent, Decide(Configured().rule, recent, bar.close, currentlyLong));
      if !currentlyLong && FarBelow(Value(bar.close), mean, Value(entry), variance) {
        isLong := isLong[bar.asset := true];
        return [Intent(strategyId, bar.asset, quantity, bar.timestamp)];
      }
      if currentlyLong && Value(bar.close) >= mean {
        isLong := isLong[bar.asset := false];
        return [Intent(strategyId, bar.asset, Negated(quantity), bar.timestamp)];
      }
      return [];
    }

    method CaptureState() returns (payload: Payload)
      ensures payload == Captured(Configured(), Remembered())
    {
      payload := Payload(BandsParameters(window, Canonical(entry), Canonical(quantity)),
                         map a | a in closes :: Printed(closes[a]), isLong);
    }

    method RestoreState(payload: Option<Payload>, version: int) returns (accepted: bool)
      modifies this
      ensures accepted <==> Restored(Configured(), payload, version).Some?
      ensures Remembered() == if accepted then Restored(Configured(), payload, version).value else old(Remembered())
    {
      if version != STATE_VERSION || payload.None?
         || payload.value.parameters != BandsParameters(window, Canonical(entry), Canonical(quantity)) {
        return false;
      }
      closes := map a | a in payload.value.closes :: Parsed(payload.value.closes[a]);
      isLong := payload.value.long;
      return true;
    }
  }

  class BuyAndHold {
    const strategyId: string
    const quantity: Decimal
    var bought: set<string>

    constructor (strategyId: string, quantity: Decimal)
      ensures bought == {} && this.strategyId == strategyId && this.quantity == quantity
    {
      this.strategyId, this.quantity, bought := strategyId, quantity, {};
    }

    method OnBar(bar: Bar) returns (intents: seq<Intent>)
      modifies this
      ensures Ran(bought, intents) == Holding(strategyId, quantity)(old(bought), bar)
    {
      if bar.asset in bought {
        return [];
      }
      bought := bought + {bar.asset};
      return [Intent(strategyId, bar.asset, quantity, bar.timestamp)];
    }

    method CaptureState() returns (payload: HoldPayload)
      ensures payload == HoldCaptured(quantity, bought)
    {
      payload := HoldPayload(HoldParameters(Canonical(quantity)), Sorted(bought));
    }

    method RestoreState(payload: Option<HoldPayload>, version: int) returns (accepted: bool)
      modifies this
      ensures accepted <==> HoldRestored(quantity, payload, version).Some?
      ensures bought == if accepted then HoldRestored(quantity, payload, version).value else old(bought)
    {
      if version != STATE_VERSION || payload.None? || payload.value.parameters != HoldParameters(Canonical(quantity)) {
        return false;
      }
      bought := set a | a in payload.value.bought;
      return true;
    }
  }

  /** One instance, bar after bar. */
  method Feed(strategy: MovingAverageCrossover, bars: seq<Bar>) returns (intents: seq<Intent>)
    requires Sensible(strategy.Configured().rule)
    modifies strategy
    ensures Ran(strategy.Remembered(), intents) == RunAll(Windowed(strategy.Configured()), old(strategy.Remembered()), bars)
  {
    ghost var f, start := Windowed(strategy.Configured()), strategy.Remembered();
    intents := [];
    for i := 0 to |bars|
      invariant Ran(strategy.Remembered(), intents) == Run(f, start, bars, i)
    {
      var emitted := strategy.OnBar(bars[i]);
      intents := intents + emitted;
    }
  }

  /** A stop in the middle, on the objects themselves: one instance is fed the first bars and captured, a
      fresh one is restored and fed the rest. Together they emit what one uninterrupted instance emits. */
  method RunWithStop(id: string, fast: nat, slow: nat, quantity: Decimal, bars: seq<Bar>, more: seq<Bar>)
    returns (intents: seq<Intent>)
    requires 1 <= fast < slow
    ensures intents == RunAll(Windowed(Settings(id, Crossover(fast, slow), quantity)), BLANK, bars + more).intents
  {
    ResumeIsInvisible(Settings(id, Crossover(fast, slow), quantity), bars, more);
    var first := new MovingAverageCrossover(id, fast, slow, quantity);
    var earlier := Feed(first, bars);
    var payload := first.CaptureState();
    var second := new MovingAverageCrossover(id, fast, slow, quantity);
    var accepted := second.RestoreState(Some(payload), STATE_VERSION);
    var later := Feed(second, more);
    return earlier + later;
  }
}
