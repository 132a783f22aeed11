/**
  Counting what the model calls use (bfg2/bfg/core/agent_views.py, lines 68-71 and 140-198).
  Over every run of calls the meters of a model add up to exactly the tokens reported for it,
  with negative counts read as zero and cached tokens capped at the prompt.
 */
module TokenMeter {
  import opened Wrappers

  /** The usage a response reports; a field is None when it is not a number. */
  datatype Usage = Usage(prompt: Option<int>, cached: Option<int>, completion: Option<int>)

  datatype Kind = Input | Cached | Output

  /** `_tokens`: whole, never negative, 0 when it is not a number. */
  function Tokens(value: Option<int>): nat {
    if value.Some? && value.value > 0 then value.value else 0
  }

  /** A count is the number reported or zero, whichever is more. */
  lemma TokensExact(value: Option<int>)
    ensures value.None? ==> Tokens(value) == 0
    ensures value.Some? ==> Tokens(value) >= value.value && (Tokens(value) == value.value || Tokens(value) == 0)
  {
  }

  function CachedOf(u: Usage): nat {
    if Tokens(u.cached) < Tokens(u.prompt) then Tokens(u.cached) else Tokens(u.prompt)
  }

  /** `_token_counts`, by kind. */
  function Count(u: Usage, k: Kind): nat {
    match k
    case Input => Tokens(u.prompt) - CachedOf(u)
    case Cached => CachedOf(u)
    case Output => Tokens(u.completion)
  }

  function Suffix(k: Kind): string {
    match k
    case Input => ".input"
    case Cached => ".input_cached"
    case Output => ".output"
  }

  /** The meter of a model, whose name has been trimmed and lower-cased. */
  function MeterName(model: string, k: Kind): string {
    "ai." + model + Suffix(k)
  }

  type Totals = map<string, nat>

  function Total(t: Totals, name: string): nat {
    if name in t then t[name] else 0
  }

  function Add(t: Totals, name: string, amount: nat): Totals {
    if amount == 0 then t else t[name := Total(t, name) + amount]
  }

  function Metered(t: Totals, model: string, usage: Option<Usage>): Totals {
    match usage
    case None => t
    case Some(u) =>
      Add(Add(Add(t, MeterName(model, Input), Count(u, Input)), MeterName(model, Cached), Count(u, Cached)),
          MeterName(model, Output), Count(u, Output))
  }

  class Meters {
    var totals: Totals

    constructor ()
      ensures totals == map[]
    {
      totals := map[];
    }

    /** `_meter_tokens` for one finished call. */
    method MeterTokens(model: string, usage: Option<Usage>)
      modifies this
      ensures totals == Metered(old(totals), model, usage)
    {
      hide MeterName;
      if usage.None? {
        return;
      }
      var kinds := [Input, Cached, Output];
      var i := 0;
      while i < 3
        invariant 0 <= i <= 3
        invariant i == 0 ==> totals == old(totals)
        invariant i == 1 ==> totals == Add(old(totals), MeterName(model, Input), Count(usage.value, Input))
        invariant i == 2 ==> totals == Add(Add(old(totals), MeterName(model, Input), Count(usage.value, Input)),
                                           MeterName(model, Cached), Count(usage.value, Cached))
        invariant i == 3 ==> totals == Metered(old(totals), model, usage)
      {
        var name, tokens := MeterName(model, kinds[i]), Count(usage.value, kinds[i]);
        if tokens > 0 {
          totals := totals[name := (if name in totals then totals[name] else 0) + tokens];
        }
        i := i + 1;
      }
    }
  }

  // ---- Meter names ----

  lemma MeterNameExact(model: string)
    ensures MeterName(model, Input) == "ai." + model + ".input"
    ensures MeterName(model, Cached) == "ai." + model + ".input_cached"
    ensures MeterName(model, Output) == "ai." + model + ".output"
  {
  }

  lemma SuffixEnds(model: string, k: Kind)
    ensures var n := MeterName(model, k);
      |n| == 3 + |model| + |Suffix(k)| && n[3..3 + |model|] == model
      && forall i :: 0 <= i < |Suffix(k)| ==> n[|n| - |Suffix(k)| + i] == Suffix(k)[i]
  {
  }

  /** A meter belongs to one model and one kind. */
  lemma MeterNamesDiffer(m1: string, k1: Kind, m2: string, k2: Kind)
    requires MeterName(m1, k1) == MeterName(m2, k2)
    ensures m1 == m2 && k1 == k2
  {
    var n := MeterName(m1, k1);
    SuffixEnds(m1, k1);
    SuffixEnds(m2, k2);
    hide MeterName;
    assert n[|n| - 5] == Suffix(k1)[|Suffix(k1)| - 5] == Suffix(k2)[|Suffix(k2)| - 5];
  }

  // ---- Conservation ----

  datatype ModelCall = ModelCall(model: string, usage: Option<Usage>)

  function MeteredAll(t: Totals, calls: seq<ModelCall>): Totals
    decreases |calls|
  {
    if calls == [] then t else MeteredAll(Metered(t, calls[0].model, calls[0].usage), calls[1..])
  }

  /** The prompt and completion tokens reported for a model. */
  function Prompted(calls: seq<ModelCall>, model: string): nat {
    if calls == [] then 0
    else
      var first := if calls[0].model == model && calls[0].usage.Some? then Tokens(calls[0].usage.value.prompt) else 0;
      first + Prompted(calls[1..], model)
  }

  function Completed(calls: seq<ModelCall>, model: string): nat {
    if calls == [] then 0
    else
      var first :=
        if calls[0].model == model && calls[0].usage.Some? then Tokens(calls[0].usage.value.completion) else 0;
      first + Completed(calls[1..], model)
  }

  /** The cached tokens reported for a model, never more than the prompt of the same call. */
  function Hits(calls: seq<ModelCall>, model: string): nat {
    if calls == [] then 0
    else
      var first :=
        if calls[0].model != model || calls[0].usage.None? then 0
        else if Tokens(calls[0].usage.value.cached) > Tokens(calls[0].usage.value.prompt)
        then Tokens(calls[0].usage.value.prompt)
        else Tokens(calls[0].usage.value.cached);
      first + Hits(calls[1..], model)
  }

  lemma OneCall(t: Totals, c: ModelCall, model: string, k: Kind)
    ensures Total(Metered(t, c.model, c.usage), MeterName(model, k))
      == Total(t, MeterName(model, k)) + if c.model == model && c.usage.Some? then Count(c.usage.value, k) else 0
  {
    if c.usage.Some? {
      forall j: Kind
        ensures MeterName(c.model, j) == MeterName(model, k) <==> c.model == model && j == k
      {
        if MeterName(c.model, j) == MeterName(model, k) {
          MeterNamesDiffer(c.model, j, model, k);
        }
      }
      hide MeterName;
      assert Input != Cached && Cached != Output && Input != Output;
      assert k == Input || k == Cached || k == Output;
    }
  }

  /**
    Over every run of model calls: fresh and cached input together are the prompt tokens
    reported for the model, of which the cached part is what was reported as cached, output is the
    completion tokens, and nothing is counted for a call
    without usage.
   */
  lemma {:induction false} Conserved(t: Totals, calls: seq<ModelCall>, model: string)
    ensures var after := MeteredAll(t, calls);
      && Total(after, MeterName(model, Input)) + Total(after, MeterName(model, Cached))
         == Total(t, MeterName(model, Input)) + Total(t, MeterName(model, Cached)) + Prompted(calls, model)
      && Total(after, MeterName(model, Cached)) == Total(t, MeterName(model, Cached)) + Hits(calls, model)
      && Total(after, MeterName(model, Output)) == Total(t, MeterName(model, Output)) + Completed(calls, model)
    decreases |calls|
  {
    hide MeterName, Metered, Tokens;
    if calls != [] {
      var c := calls[0];
      OneCall(t, c, model, Input);
      OneCall(t, c, model, Cached);
      OneCall(t, c, model, Output);
      Conserved(Metered(t, c.model, c.usage), calls[1..], model);
    }
  }

  /** No meter is ever recorded as zero, and none ever falls. */
  lemma {:induction false} OnlyWhatWasUsed(t: Totals, calls: seq<ModelCall>, name: string)
    requires forall n :: n in t ==> t[n] > 0
    ensures forall n :: n in MeteredAll(t, calls) ==> MeteredAll(t, calls)[n] > 0
    ensures Total(MeteredAll(t, calls), name) >= Total(t, name)
    decreases |calls|
  {
    hide MeterName, Count;
    if calls != [] {
      OnlyWhatWasUsed(Metered(t, calls[0].model, calls[0].usage), calls[1..], name);
    }
  }
}
