/**
 When the rolling-window strategies buy and sell (alphalab_bridge/strategies.py), said of an instrument's
 own bars in a stream: sums over its last closes, with no reference to windows, memory or signals.
 */
module TradingRules {
  import opened Decimals
  import opened Strategies

  // ----- the last closes -----

  /** The sum of the `n` closes up to bar `k`. */
  function SumBack(own: seq<Bar>, k: nat, n: nat): real
    requires n <= k <= |own|
  {
    if n == 0 then 0.0 else SumBack(own, k - 1, n - 1) + Value(own[k - 1].close)
  }

  /** Their mean. */
  function MeanBack(own: seq<Bar>, k: nat, n: nat): real
    requires 0 < n <= k <= |own|
  {
    SumBack(own, k, n) / n as real
  }

  function SquaresBack(own: seq<Bar>, k: nat, n: nat, mean: real): real
    requires n <= k <= |own|
  {
    if n == 0 then 0.0
    else SquaresBack(own, k - 1, n - 1, mean) + Square(Value(own[k - 1].close) - mean)
  }

  lemma SquareIsProduct(x: real)
    ensures Square(x) == x * x
  {
  }

  /** Their population variance. */
  function VarianceBack(own: seq<Bar>, k: nat, n: nat): real
    requires 0 < n <= k <= |own|
  {
    SquaresBack(own, k, n, MeanBack(own, k, n)) / n as real
  }

  /** `s` is the closes up to bar `k`, as many as it holds. */
  ghost predicate AreBack(s: seq<Decimal>, own: seq<Bar>, k: nat) {
    |s| <= k <= |own| && forall i :: 0 <= i < |s| ==> s[i] == own[k - |s| + i].close
  }

  lemma LastAreBack(own: seq<Bar>, k: nat, n: nat)
    requires n <= k <= |own|
    ensures |Last(Closes(own, k), n)| == n && AreBack(Last(Closes(own, k), n), own, k)
  {
    LastAt(Closes(own, k), n);
  }

  lemma LastAt<T>(s: seq<T>, n: nat)
    requires n <= |s|
    ensures |Last(s, n)| == n && forall i :: 0 <= i < n ==> Last(s, n)[i] == s[|s| - n + i]
  {
  }

  lemma BackShorter(s: seq<Decimal>, own: seq<Bar>, k: nat)
    requires s != [] && AreBack(s, own, k)
    ensures AreBack(s[..|s| - 1], own, k - 1) && s[|s| - 1] == own[k - 1].close
  {
  }

  lemma {:induction false} SumIsSumBack(s: seq<Decimal>, own: seq<Bar>, k: nat)
    requires AreBack(s, own, k)
    ensures Sum(s) == SumBack(own, k, |s|)
    decreases |s|
  {
    if s != [] {
      BackShorter(s, own, k);
      SumIsSumBack(s[..|s| - 1], own, k - 1);
    }
  }

  lemma {:induction false} SquaresAreSquaresBack(s: seq<Decimal>, own: seq<Bar>, k: nat, mean: real)
    requires AreBack(s, own, k)
    ensures Squares(s, mean) == SquaresBack(own, k, |s|, mean)
    decreases |s|
  {
    if s != [] {
      BackShorter(s, own, k);
      SquaresAreSquaresBack(s[..|s| - 1], own, k - 1, mean);
    }
  }

  lemma MeanIsMeanBack(own: seq<Bar>, k: nat, n: nat)
    requires 0 < n <= k <= |own|
    ensures Last(Closes(own, k), n) != [] && Mean(Last(Closes(own, k), n)) == MeanBack(own, k, n)
  {
    LastAreBack(own, k, n);
    SumIsSumBack(Last(Closes(own, k), n), own, k);
  }

  lemma VarianceIsVarianceBack(own: seq<Bar>, k: nat, n: nat)
    requires 0 < n <= k <= |own|
    ensures Last(Closes(own, k), n) != [] && Variance(Last(Closes(own, k), n)) == VarianceBack(own, k, n)
  {
    MeanIsMeanBack(own, k, n);
    LastAreBack(own, k, n);
    SquaresAreSquaresBack(Last(Closes(own, k), n), own, k, MeanBack(own, k, n));
  }

  lemma LastOfWindow(own: seq<Bar>, k: nat, fast: nat, slow: nat)
    requires fast <= slow <= k <= |own|
    ensures Last(Last(Closes(own, k), slow), fast) == Last(Closes(own, k), fast)
  {
  }

  // ----- when an instrument is held -----

  /** The crossover holds an instrument after its bar `k` when there are enough bars and the mean of the
      last `fast` closes is above that of the last `slow`. */
  predicate Above(fast: nat, slow: nat, own: seq<Bar>, k: nat)
    requires 1 <= fast < slow && k <= |own|
  {
    k >= slow && MeanBack(own, k, fast) > MeanBack(own, k, slow)
  }

  /** The bands enter at a close more than `entry` deviations below the mean (`BandsTurnExactly` says it of
      the square root itself), and leave at a close that has come back to the mean. */
  predicate Reverting(window: nat, entry: real, own: seq<Bar>, k: nat)
    requires window >= 1 && k <= |own|
  {
    k >= window
    && var close, mean, variance := Value(own[k - 1].close), MeanBack(own, k, window), VarianceBack(own, k, window);
       if Reverting(window, entry, own, k - 1) then close < mean
       else FarBelow(close, mean, entry, variance)
  }

  predicate Held(rule: Rule, own: seq<Bar>, k: nat)
    requires Sensible(rule) && k <= |own|
  {
    match rule
    case Crossover(fast, slow) => Above(fast, slow, own, k)
    case Bands(window, entry) => Reverting(window, Value(entry), own, k)
  }

  /** What bar `k` brings: a purchase when the instrument is held from it on, a sale when no longer. */
  function TradeAt(s: Settings, own: seq<Bar>, k: nat): seq<Intent>
    requires Sensible(s.rule) && 0 < k <= |own|
  {
    var b := own[k - 1];
    if Held(s.rule, own, k) && !Held(s.rule, own, k - 1) then [Intent(s.id, b.asset, s.quantity, b.timestamp)]
    else if !Held(s.rule, own, k) && Held(s.rule, own, k - 1) then [Intent(s.id, b.asset, Negated(s.quantity), b.timestamp)]
    else []
  }

  function Trades(s: Settings, own: seq<Bar>, k: nat): seq<Intent>
    requires Sensible(s.rule) && k <= |own|
  {
    if k == 0 then [] else Trades(s, own, k - 1) + TradeAt(s, own, k)
  }

  lemma CrossoverCompares(fast: nat, slow: nat, window: seq<Decimal>, close: Decimal, long: bool, fastMean: real, slowMean: real)
    requires 1 <= fast < slow == |window|
    requires Last(window, fast) != [] && Mean(Last(window, fast)) == fastMean && Mean(window) == slowMean
    ensures var signal := Decide(Crossover(fast, slow), window, close, long);
            (fastMean > slowMean && !long <==> signal == Enter) && (fastMean <= slowMean && long <==> signal == Exit)
  {
  }

  lemma CrossoverDecides(fast: nat, slow: nat, own: seq<Bar>, k: nat, close: Decimal, long: bool)
    requires 1 <= fast < slow <= k <= |own|
    ensures var signal := Decide(Crossover(fast, slow), Last(Closes(own, k), slow), close, long);
            && (Above(fast, slow, own, k) && !long <==> signal == Enter)
            && (!Above(fast, slow, own, k) && long <==> signal == Exit)
  {
    MeanIsMeanBack(own, k, fast);
    MeanIsMeanBack(own, k, slow);
    LastOfWindow(own, k, fast, slow);
    CrossoverCompares(fast, slow, Last(Closes(own, k), slow), close, long, MeanBack(own, k, fast), MeanBack(own, k, slow));
  }

  lemma BandsDecide(window: nat, entry: Decimal, own: seq<Bar>, k: nat)
    requires Sensible(Bands(window, entry)) && window <= k <= |own|
    ensures var now, long := Reverting(window, Value(entry), own, k), Reverting(window, Value(entry), own, k - 1);
            var signal := Decide(Bands(window, entry), Last(Closes(own, k), window), own[k - 1].close, long);
            (now && !long <==> signal == Enter) && (!now && long <==> signal == Exit)
  {
    MeanIsMeanBack(own, k, window);
    VarianceIsVarianceBack(own, k, window);
  }

  /** What is kept for an instrument after its first `k` bars. */
  ghost predicate KeptIs(s: Settings, own: seq<Bar>, k: nat, r: Ran<Kept>)
    requires Sensible(s.rule) && k <= |own|
  {
    && r.memory.window == Last(Closes(own, k), Size(s.rule))
    && r.memory.long == Held(s.rule, own, k) && r.intents == Trades(s, own, k)
  }

  lemma NotYetHeld(s: Settings, own: seq<Bar>, k: nat)
    requires Sensible(s.rule) && k <= |own| && k < Size(s.rule)
    ensures !Held(s.rule, own, k)
  {
  }

  lemma SignalIsHeld(s: Settings, own: seq<Bar>, k: nat, kept: Kept)
    requires Sensible(s.rule) && 0 < k <= |own|
    requires kept.window == Last(Closes(own, k - 1), Size(s.rule)) && kept.long == Held(s.rule, own, k - 1)
    ensures var signal := SignalOf(s, kept, own[k - 1].close);
            && (Held(s.rule, own, k) && !kept.long <==> signal == Enter)
            && (!Held(s.rule, own, k) && kept.long <==> signal == Exit)
  {
    LastOfLast(Closes(own, k - 1), own[k - 1].close, Size(s.rule));
    if k < Size(s.rule) {
      NotYetHeld(s, own, k);
      NotYetHeld(s, own, k - 1);
    } else {
      match s.rule
      case Crossover(fast, slow) => CrossoverDecides(fast, slow, own, k, own[k - 1].close, kept.long);
      case Bands(window, entry) => BandsDecide(window, entry, own, k);
    }
  }

  lemma LocalStep(s: Settings, kept: Kept, b: Bar, signal: Signal)
    requires Sensible(s.rule) && signal == SignalOf(s, kept, b.close)
    ensures Local(s)(kept, b) == Ran(Kept(Last(kept.window + [b.close], Size(s.rule)), if signal == Hold then kept.long else signal == Enter),
                                     IntentOf(s, b, signal))
  {
  }

  lemma WindowOneMore(own: seq<Bar>, k: nat, size: nat, window: seq<Decimal>)
    requires size >= 1 && 0 < k <= |own| && window == Last(Closes(own, k - 1), size)
    ensures Last(window + [own[k - 1].close], size) == Last(Closes(own, k), size)
  {
    LastOfLast(Closes(own, k - 1), own[k - 1].close, size);
  }

  lemma KeptOneMore(s: Settings, own: seq<Bar>, k: nat, before: Ran<Kept>, signal: Signal, after: Ran<Kept>)
    requires Sensible(s.rule) && 0 < k <= |own| && KeptIs(s, own, k - 1, before)
    requires Held(s.rule, own, k) && !Held(s.rule, own, k - 1) <==> signal == Enter
    requires !Held(s.rule, own, k) && Held(s.rule, own, k - 1) <==> signal == Exit
    requires after.memory == Kept(Last(before.memory.window + [own[k - 1].close], Size(s.rule)),
                                  if signal == Hold then before.memory.long else signal == Enter)
    requires after.intents == before.intents + IntentOf(s, own[k - 1], signal)
    ensures KeptIs(s, own, k, after)
  {
    WindowOneMore(own, k, Size(s.rule), before.memory.window);
    IntentIsTrade(s, own, k, signal);
  }

  lemma IntentIsTrade(s: Settings, own: seq<Bar>, k: nat, signal: Signal)
    requires Sensible(s.rule) && 0 < k <= |own|
    requires Held(s.rule, own, k) && !Held(s.rule, own, k - 1) <==> signal == Enter
    requires !Held(s.rule, own, k) && Held(s.rule, own, k - 1) <==> signal == Exit
    ensures IntentOf(s, own[k - 1], signal) == TradeAt(s, own, k)
    ensures Held(s.rule, own, k) == if signal == Hold then Held(s.rule, own, k - 1) else signal == Enter
  {
  }

  lemma {:induction false} KeptRuns(s: Settings, own: seq<Bar>, k: nat)
    requires Sensible(s.rule) && k <= |own|
    ensures KeptIs(s, own, k, Run(Local(s), NOTHING, own, k))
    decreases k
  {
    if k > 0 {
      KeptRuns(s, own, k - 1);
      var before := Run(Local(s), NOTHING, own, k - 1);
      var signal := SignalOf(s, before.memory, own[k - 1].close);
      SignalIsHeld(s, own, k, before.memory);
      LocalStep(s, before.memory, own[k - 1], signal);
      KeptOneMore(s, own, k, before, signal, Run(Local(s), NOTHING, own, k));
    } else {
      NotYetHeld(s, own, 0);
    }
  }

  /** In any stream, an instrument is long after its bars exactly when its rule says so of its own closes,
      and its intents are exactly a purchase at each bar from which it is held and a sale at each from
      which it is not, under the strategy's name and at the bar's time. */
  lemma TradesExactly(s: Settings, bars: seq<Bar>, asset: string)
    requires Sensible(s.rule)
    ensures var own, r := Own(bars, asset, |bars|), RunAll(Windowed(s), BLANK, bars);
            && (KeptFor(r.memory, asset).long <==> Held(s.rule, own, |own|))
            && Of(r.intents, asset) == Trades(s, own, |own|)
  {
    WindowedSeparates(s);
    RunSeparates(Windowed(s), Local(s), KeptFor, BLANK, bars, asset, |bars|);
    KeptRuns(s, Own(bars, asset, |bars|), |Own(bars, asset, |bars|)|);
  }

  /** The crossover: long after at least `slow` own bars if and only if the fast mean exceeds the slow one. */
  lemma CrossoverIsLongExactly(s: Settings, bars: seq<Bar>, asset: string)
    requires s.rule.Crossover? && Sensible(s.rule)
    ensures var own := Own(bars, asset, |bars|);
            KeptFor(RunAll(Windowed(s), BLANK, bars).memory, asset).long
            <==> |own| >= s.rule.slow
                 && SumBack(own, |own|, s.rule.fast) / s.rule.fast as real > SumBack(own, |own|, s.rule.slow) / s.rule.slow as real
  {
    TradesExactly(s, bars, asset);
  }

  /** The bands, against the square root the source takes: a flat instrument is entered at a full window's
      close below mean minus `entry` deviations (the deviation not being zero), a held one is left at a
      close at or above the mean. */
  lemma BandsTurnExactly(window: nat, entry: real, own: seq<Bar>, k: nat, deviation: real)
    requires window >= 1 && entry > 0.0 && window <= k <= |own|
    requires deviation >= 0.0 && deviation * deviation == VarianceBack(own, k, window)
    ensures var close, mean := Value(own[k - 1].close), MeanBack(own, k, window);
            Reverting(window, entry, own, k)
            <==> if Reverting(window, entry, own, k - 1) then !(close >= mean) else deviation > 0.0 && close < mean - entry * deviation
  {
    FarBelowExactly(Value(own[k - 1].close), MeanBack(own, k, window), entry, VarianceBack(own, k, window), deviation);
  }
}
