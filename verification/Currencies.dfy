/**
  The currencies a shop offers (bfg2/bfg/finance/currencies.py, lines 18-57; `Settings.save` in
  bfg2/bfg/common/models/core.py, lines 241-247).

  The stored list is a plain set of currencies, except that the empty list stands for every
  active currency.  The refinement lemmas say when that difference can be seen.
 */
module Currencies {
  import opened Wrappers

  type Code = string

  datatype Error = DefaultCurrency

  /** The offered codes among the active ones; an empty list offers them all. */
  ghost function Offered(enabled: seq<Code>, active: seq<Code>): set<Code> {
    set c | c in active && (enabled == [] || c in enabled)
  }

  function Without(codes: seq<Code>, code: Code): seq<Code> {
    if codes == [] then []
    else (if codes[0] == code then [] else [codes[0]]) + Without(codes[1..], code)
  }

  lemma {:induction false} WithoutExact(codes: seq<Code>, code: Code, c: Code)
    ensures c in Without(codes, code) <==> c in codes && c != code
  {
    if codes != [] {
      WithoutExact(codes[1..], code, c);
      assert c in codes <==> c == codes[0] || c in codes[1..];
    }
  }

  /** The other codes keep their order. */
  lemma {:induction false} WithoutInOrder(a: seq<Code>, b: seq<Code>, code: Code)
    ensures Without(a + b, code) == Without(a, code) + Without(b, code)
    ensures Without([code], code) == [] && forall c :: c != code ==> Without([c], code) == [c]
  {
    assert forall c: Code :: [c][1..] == [];
    if a == [] {
      assert a + b == b;
    } else {
      assert (a + b)[0] == a[0] && (a + b)[1..] == a[1..] + b;
      WithoutInOrder(a[1..], b, code);
    }
  }

  /** What `Settings.save` stores: a non-empty list always holds the default currency. */
  function Saved(enabled: seq<Code>, standard: Code): seq<Code> {
    if enabled != [] && standard != "" && standard !in enabled then enabled + [standard] else enabled
  }

  /** The list `set_currency_enabled` starts from. */
  function Explicit(enabled: seq<Code>, active: seq<Code>): seq<Code> {
    if enabled == [] then active else enabled
  }

  function Switched(enabled: seq<Code>, standard: Code, active: seq<Code>, code: Code, on: bool): seq<Code> {
    if on then
      if enabled == [] then []
      else Saved(if code in enabled then enabled else enabled + [code], standard)
    else Saved(Without(Explicit(enabled, active), code), standard)
  }

  /** What every stored row satisfies, since every write goes through `Settings.save`. */
  ghost predicate Kept(enabled: seq<Code>, standard: Code) {
    enabled != [] && standard != "" ==> standard in enabled
  }

  class ShopSettings {
    var enabled: seq<Code>
    var standard: Code

    constructor (standard: Code)
      ensures this.standard == standard && enabled == []
    {
      this.standard := standard;
      enabled := [];
    }

    method Save()
      modifies this`enabled
      ensures enabled == Saved(old(enabled), standard) && Kept(enabled, standard)
    {
      if enabled != [] && standard != "" && standard !in enabled {
        enabled := enabled + [standard];
      }
    }

    /** `set_currency_enabled`: the codes now stored, or an error that changes nothing. */
    method SetCurrencyEnabled(code: Code, on: bool, active: seq<Code>) returns (r: Result<seq<Code>, Error>)
      modifies this`enabled
      ensures !on && code == standard ==> r == Err(DefaultCurrency) && enabled == old(enabled)
      ensures on || code != standard ==>
        r == Ok(enabled) && enabled == Switched(old(enabled), standard, active, code, on)
    {
      if !on && code == standard {
        return Err(DefaultCurrency);
      }
      var codes := enabled;
      if codes == [] {
        if on {
          return Ok([]);
        }
        codes := active;
      }
      if on && code !in codes {
        codes := codes + [code];
      } else if !on {
        codes := Without(codes, code);
      }
      enabled := codes;
      Save();
      r := Ok(enabled);
    }

    method ChooseDefault(code: Code)
      modifies this
      ensures standard == code && enabled == Saved(old(enabled), code)
    {
      standard := code;
      Save();
    }
  }

  // ---- One switch ----

  /** Saving puts a missing default behind the other codes, and changes nothing else. */
  lemma SavedExact(enabled: seq<Code>, standard: Code)
    ensures enabled == [] || standard == "" || standard in enabled ==> Saved(enabled, standard) == enabled
    ensures !(enabled == [] || standard == "" || standard in enabled) ==>
      Saved(enabled, standard) == enabled + [standard]
  {
  }

  /** What is stored when a currency is switched on: nothing changes when it is there, or nothing was chosen. */
  lemma SwitchedOnStored(enabled: seq<Code>, standard: Code, active: seq<Code>, code: Code)
    requires Kept(enabled, standard)
    ensures var after := Switched(enabled, standard, active, code, true);
      after == if enabled == [] || code in enabled then enabled else enabled + [code]
  {
  }

  /** And off: the code is taken out of the list, or out of all active codes, and the default put in if missing. */
  lemma SwitchedOffStored(enabled: seq<Code>, standard: Code, active: seq<Code>, code: Code)
    ensures var after := Switched(enabled, standard, active, code, false);
      after == Saved(Without(if enabled == [] then active else enabled, code), standard)
  {
  }

  lemma SwitchKeeps(enabled: seq<Code>, standard: Code, active: seq<Code>, code: Code, on: bool)
    requires Kept(enabled, standard)
    ensures Kept(Switched(enabled, standard, active, code, on), standard)
  {
  }

  /** Switching an active currency on adds it to the offered set, and nothing else. */
  lemma SwitchedOn(enabled: seq<Code>, standard: Code, active: seq<Code>, code: Code)
    requires Kept(enabled, standard) && code in active
    ensures Offered(Switched(enabled, standard, active, code, true), active) == Offered(enabled, active) + {code}
  {
    if enabled != [] {
      var after := Switched(enabled, standard, active, code, true);
      forall c
        ensures c in after <==> c in enabled || c == code
      {
      }
      assert after != [];
    }
  }

  /**
    Switching an active currency off removes exactly it from the offered set if and only if the
    list it is removed from names some other currency; otherwise the list becomes empty and
    everything active is offered again.
   */
  lemma SwitchedOff(enabled: seq<Code>, standard: Code, active: seq<Code>, code: Code)
    requires Kept(enabled, standard) && code in active && code != standard
    ensures Offered(Switched(enabled, standard, active, code, false), active) == Offered(enabled, active) - {code}
      <==> exists c :: c in Explicit(enabled, active) && c != code
    ensures Switched(enabled, standard, active, code, false) == []
      <==> !exists c :: c in Explicit(enabled, active) && c != code
  {
    var explicit := Explicit(enabled, active);
    var rest := Without(explicit, code);
    var after := Saved(rest, standard);
    forall c
      ensures c in rest <==> c in explicit && c != code
    {
      WithoutExact(explicit, code, c);
    }
    if rest == [] {
      assert after == [];
      assert code in Offered(after, active);
      assert forall c :: c in explicit ==> c == code;
    } else {
      assert rest[0] in rest;
      forall c | c in active
        ensures c in after <==> c in explicit && c != code
      {
        if c == standard && c != "" {
          assert c in explicit;
        }
      }
    }
  }

  /** While the default is an active currency, no switch-off can empty the list. */
  lemma NeverSilentlyAll(enabled: seq<Code>, standard: Code, active: seq<Code>, code: Code)
    requires Kept(enabled, standard) && standard != "" && standard in active && code != standard
    ensures Switched(enabled, standard, active, code, false) != []
  {
    WithoutExact(Explicit(enabled, active), code, standard);
  }

  // ---- Runs ----

  datatype Event = On(code: Code) | Off(code: Code) | Default(code: Code)

  datatype Shop = Shop(enabled: seq<Code>, standard: Code)

  function Step(s: Shop, active: seq<Code>, e: Event): Shop {
    match e
    case On(code) => s.(enabled := Switched(s.enabled, s.standard, active, code, true))
    case Off(code) =>
      if code == s.standard then s else s.(enabled := Switched(s.enabled, s.standard, active, code, false))
    case Default(code) => Shop(Saved(s.enabled, code), code)
  }

  function Run(s: Shop, active: seq<Code>, events: seq<Event>): Shop
    decreases |events|
  {
    if events == [] then s else Run(Step(s, active, events[0]), active, events[1..])
  }

  /** The same events on a plain set of codes that never loses the default. */
  function OnSet(offered: set<Code>, standard: Code, events: seq<Event>): set<Code>
    decreases |events|
  {
    if events == [] then offered
    else
      match events[0]
      case On(code) => OnSet(offered + {code}, standard, events[1..])
      case Off(code) => OnSet(if code == standard then offered else offered - {code}, standard, events[1..])
      case Default(code) => OnSet(offered + {code}, code, events[1..])
  }

  ghost predicate Sound(s: Shop, active: seq<Code>) {
    Kept(s.enabled, s.standard) && s.standard != "" && s.standard in active
  }

  lemma StepSound(s: Shop, active: seq<Code>, e: Event)
    requires Sound(s, active) && e.code in active && e.code != ""
    ensures Sound(Step(s, active, e), active)
    ensures Offered(Step(s, active, e).enabled, active) == OnSet(Offered(s.enabled, active), s.standard, [e])
  {
    hide Without;
    match e
    case On(code) =>
      SwitchKeeps(s.enabled, s.standard, active, code, true);
      SwitchedOn(s.enabled, s.standard, active, code);
      assert OnSet(Offered(s.enabled, active), s.standard, [e]) == Offered(s.enabled, active) + {code};
    case Off(code) =>
      if code != s.standard {
        SwitchKeeps(s.enabled, s.standard, active, code, false);
        SwitchedOff(s.enabled, s.standard, active, code);
        assert s.standard in Explicit(s.enabled, active);
      }
    case Default(code) =>
      assert OnSet(Offered(s.enabled, active), s.standard, [e]) == Offered(s.enabled, active) + {code};
      var after := Saved(s.enabled, code);
      forall c
        ensures c in after <==> c in s.enabled || (s.enabled != [] && c == code)
      {
      }
  }

  /**
    Over every run of switches and changes of the default, what the shop offers is the fold of
    the matching insertions and removals on a plain set, and the default is always offered.
   */
  lemma {:induction false} OffersAPlainSet(s: Shop, active: seq<Code>, events: seq<Event>)
    requires Sound(s, active)
    requires forall i :: 0 <= i < |events| ==> events[i].code in active && events[i].code != ""
    ensures var after := Run(s, active, events);
      && Offered(after.enabled, active) == OnSet(Offered(s.enabled, active), s.standard, events)
      && after.standard in Offered(after.enabled, active)
    decreases |events|
  {
    if events != [] {
      var next := Step(s, active, events[0]);
      StepSound(s, active, events[0]);
      hide Offered, Sound, Switched, Saved;
      OffersAPlainSet(next, active, events[1..]);
    }
  }

  datatype Timed = Timed(event: Event, active: seq<Code>)

  function RunTimed(s: Shop, steps: seq<Timed>): Shop
    decreases |steps|
  {
    if steps == [] then s else RunTimed(Step(s, steps[0].active, steps[0].event), steps[1..])
  }

  /**
    Once a shop has chosen, its list is never empty again and always names the default,
    whatever currencies are activated or deactivated between the events.
   */
  lemma {:induction false} AChoiceIsNeverForgotten(s: Shop, steps: seq<Timed>)
    requires s.enabled != [] && s.standard != "" && s.standard in s.enabled
    requires forall i :: 0 <= i < |steps| ==> steps[i].event.code != ""
    ensures var after := RunTimed(s, steps); after.enabled != [] && after.standard in after.enabled
    decreases |steps|
  {
    if steps != [] {
      var e := steps[0].event;
      if e.Off? {
        WithoutExact(s.enabled, e.code, s.standard);
      }
      AChoiceIsNeverForgotten(Step(s, steps[0].active, e), steps[1..]);
    }
  }
}
