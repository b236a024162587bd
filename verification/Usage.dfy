/** Token accounting over a session: samples of one step replace each other, steps add up. */
module Usage {
  import opened Basics

  type u64 = n: nat | n <= U64_MAX

  datatype TokenUsage = TokenUsage(input: u64, output: u64, cacheRead: u64, cacheWrite: u64)

  const NO_USAGE: TokenUsage := TokenUsage(0, 0, 0, 0)

  function SatSub(a: u64, b: u64): u64 { if a < b then 0 else a - b }

  datatype Step = Step(turn: Option<u64>, step: Option<u64>)

  datatype Sample = Sample(step: Step, usage: TokenUsage)

  // ---- the reference ----

  /** The last sample of each maximal run of samples with equal turn and step. */
  function RunEnds(samples: seq<Sample>): seq<TokenUsage> {
    if samples == [] then []
    else if |samples| > 1 && samples[0].step == samples[1].step then RunEnds(samples[1..])
    else [samples[0].usage] + RunEnds(samples[1..])
  }

  /** One of the four counts. */
  type Count = TokenUsage -> u64

  function Total(count: Count, usages: seq<TokenUsage>): nat {
    if usages == [] then 0 else Total(count, usages[..|usages| - 1]) + count(usages[|usages| - 1])
  }

  function Billed(count: Count, samples: seq<Sample>): nat {
    Total(count, RunEnds(samples))
  }

  // ---- the accumulator, one count at a time ----

  function Previous(samples: seq<Sample>, step: Step): TokenUsage {
    if samples != [] && samples[|samples| - 1].step == step then samples[|samples| - 1].usage else NO_USAGE
  }

  function Accumulated(count: Count, samples: seq<Sample>): u64 {
    if samples == [] then 0
    else
      var earlier, last := samples[..|samples| - 1], samples[|samples| - 1];
      SatAdd(SatSub(Accumulated(count, earlier), count(Previous(earlier, last.step))), count(last.usage))
  }

  /** A further sample either replaces the end of the last run or starts a new one. */
  lemma {:induction false} RunEndsSnoc(samples: seq<Sample>, last: Sample)
    ensures var ends := RunEnds(samples);
            && (samples == [] <==> ends == [])
            && (samples != [] ==> ends[|ends| - 1] == samples[|samples| - 1].usage)
            && RunEnds(samples + [last]) ==
               (if samples != [] && samples[|samples| - 1].step == last.step then ends[..|ends| - 1] else ends)
               + [last.usage]
  {
    var more := samples + [last];
    if samples == [] {
      assert more == [last] && more[1..] == [];
    } else {
      assert more[1..] == samples[1..] + [last];
      RunEndsSnoc(samples[1..], last);
      if |samples| == 1 {
        assert more[1] == last && samples[1..] == [];
      } else {
        assert more[1] == samples[1];
      }
    }
  }

  lemma BilledSnoc(count: Count, samples: seq<Sample>, last: Sample)
    requires count(NO_USAGE) == 0
    ensures count(Previous(samples, last.step)) <= Billed(count, samples)
    ensures Billed(count, samples + [last]) ==
            Billed(count, samples) - count(Previous(samples, last.step)) + count(last.usage)
  {
    RunEndsSnoc(samples, last);
    var ends, more := RunEnds(samples), RunEnds(samples + [last]);
    assert more[..|more| - 1] ==
           if samples != [] && samples[|samples| - 1].step == last.step then ends[..|ends| - 1] else ends;
  }

  ghost predicate NeverOverflows(count: Count, samples: seq<Sample>) {
    forall n | 0 <= n <= |samples| :: Billed(count, samples[..n]) <= U64_MAX
  }

  /** The totals are exact after every sample of a session exactly when no true total leaves 64 bits. */
  lemma {:induction false} TotalsAreExact(count: Count, samples: seq<Sample>)
    requires count(NO_USAGE) == 0
    ensures NeverOverflows(count, samples) <==>
            forall n | 0 <= n <= |samples| :: Accumulated(count, samples[..n]) == Billed(count, samples[..n])
  {
    if NeverOverflows(count, samples) {
      forall n | 0 <= n <= |samples| ensures Accumulated(count, samples[..n]) == Billed(count, samples[..n]) {
        ExactUpTo(count, samples, n);
      }
    }
  }

  lemma {:induction false} ExactUpTo(count: Count, samples: seq<Sample>, n: nat)
    requires count(NO_USAGE) == 0 && NeverOverflows(count, samples) && n <= |samples|
    ensures Accumulated(count, samples[..n]) == Billed(count, samples[..n])
  {
    if n > 0 {
      var earlier, last := samples[..n - 1], samples[n - 1];
      ExactUpTo(count, samples, n - 1);
      assert samples[..n] == earlier + [last] && samples[..n][..n - 1] == earlier;
      BilledSnoc(count, earlier, last);
    }
  }

  /** The subtraction of the sample replaced never falls below zero, whatever overflowed before. */
  lemma NeverUnderflows(count: Count, samples: seq<Sample>, step: Step)
    requires count(NO_USAGE) == 0
    ensures count(Previous(samples, step)) <= Accumulated(count, samples)
  {
  }

  // ---- the session ----

  const Input: Count := (u: TokenUsage) => u.input
  const Output: Count := (u: TokenUsage) => u.output
  const CacheRead: Count := (u: TokenUsage) => u.cacheRead
  const CacheWrite: Count := (u: TokenUsage) => u.cacheWrite

  class SessionModel {
    var tokenUsage: TokenUsage
    var lastUsageSample: Option<Sample>
    var contextUsageUnknown: bool
    ghost var samples: seq<Sample>  // every sample that was not empty

    ghost predicate Valid()
      reads this
    {
      && tokenUsage == TokenUsage(Accumulated(Input, samples), Accumulated(Output, samples),
                                  Accumulated(CacheRead, samples), Accumulated(CacheWrite, samples))
      && lastUsageSample == if samples == [] then None else Some(samples[|samples| - 1])
    }

    constructor ()
      ensures Valid() && samples == []
    {
      tokenUsage, lastUsageSample, contextUsageUnknown, samples := NO_USAGE, None, false, [];
    }

    method RecordUsage(turn: Option<u64>, step: Option<u64>, usage: Option<TokenUsage>)
      requires Valid()
      modifies this
      ensures Valid()
      ensures samples == if usage == None || usage == Some(NO_USAGE) then old(samples)
                         else old(samples) + [Sample(Step(turn, step), usage.value)]
      ensures contextUsageUnknown == (old(contextUsageUnknown) && samples == old(samples))
    {
      if usage == None || usage.value == NO_USAGE {
        return;
      }
      var current := Sample(Step(turn, step), usage.value);
      var previous := NO_USAGE;
      if lastUsageSample.Some? && lastUsageSample.value.step == current.step {
        previous := lastUsageSample.value.usage;
      }
      var u := tokenUsage;
      u := u.(input := SatAdd(SatSub(u.input, previous.input), current.usage.input));
      u := u.(output := SatAdd(SatSub(u.output, previous.output), current.usage.output));
      u := u.(cacheRead := SatAdd(SatSub(u.cacheRead, previous.cacheRead), current.usage.cacheRead));
      u := u.(cacheWrite := SatAdd(SatSub(u.cacheWrite, previous.cacheWrite), current.usage.cacheWrite));
      tokenUsage := u;
      lastUsageSample := Some(current);
      contextUsageUnknown := false;
      samples := samples + [current];
      assert samples[..|samples| - 1] == old(samples);
    }
  }

  function PromptTokens(u: TokenUsage): u64 {
    SatAdd(SatAdd(u.input, u.cacheRead), u.cacheWrite)
  }

  /** The percentage of prompt tokens read from the cache. */
  function CacheHitRate(u: TokenUsage): Option<int> {
    var prompt := PromptTokens(u);
    if prompt == 0 then None
    else Some(SatAdd(if 100 * u.cacheRead > U64_MAX then U64_MAX else 100 * u.cacheRead, prompt / 2) / prompt)
  }

  /** `rate` percent of `prompt` is `read`, to the nearest whole number. */
  predicate Nearest(rate: int, read: nat, prompt: nat) {
    rate * prompt <= 100 * read + prompt / 2 < rate * prompt + prompt
  }

  lemma RateBounds(scaled: nat, prompt: nat, read: nat)
    requires 0 < prompt && read <= prompt && scaled <= 100 * read + prompt / 2
    ensures 0 <= scaled / prompt <= 100
    ensures scaled == 100 * read + prompt / 2 ==> Nearest(scaled / prompt, read, prompt)
  {
    var q := scaled / prompt;
    assert q * prompt <= scaled < q * prompt + prompt;
    Above(q, prompt);
  }

  lemma Above(q: nat, prompt: nat)
    ensures q > 100 ==> q * prompt >= 101 * prompt
  {
    assert q > 100 ==> (q - 101) * prompt >= 0;
  }

  /** The rate never exceeds 100, even when the sums saturate; when they do not, it is the nearest
      whole percentage; and there is one as soon as any prompt token was counted. */
  lemma HitRateMeaning(u: TokenUsage)
    ensures var prompt := u.input + u.cacheRead + u.cacheWrite;
            match CacheHitRate(u)
            case None => prompt == 0
            case Some(rate) =>
              && prompt > 0 && 0 <= rate <= 100
              && (100 * u.cacheRead + prompt <= U64_MAX ==> Nearest(rate, u.cacheRead, prompt))
  {
    var prompt := PromptTokens(u);
    if prompt > 0 {
      var hundredfold := if 100 * u.cacheRead > U64_MAX then U64_MAX else 100 * u.cacheRead;
      RateBounds(SatAdd(hundredfold, prompt / 2), prompt, u.cacheRead);
    }
  }

  /** After any session all four totals are the true ones, provided none ever left 64 bits. */
  lemma SessionTotals(session: SessionModel)
    requires session.Valid()
    requires forall count <- [Input, Output, CacheRead, CacheWrite] :: NeverOverflows(count, session.samples)
    ensures session.tokenUsage.input == Billed(Input, session.samples)
    ensures session.tokenUsage.output == Billed(Output, session.samples)
    ensures session.tokenUsage.cacheRead == Billed(CacheRead, session.samples)
    ensures session.tokenUsage.cacheWrite == Billed(CacheWrite, session.samples)
  {
    var s := session.samples;
    assert s[..|s|] == s;
    ExactUpTo(Input, s, |s|);
    ExactUpTo(Output, s, |s|);
    ExactUpTo(CacheRead, s, |s|);
    ExactUpTo(CacheWrite, s, |s|);
  }
}
