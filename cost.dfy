/**
 * Cost bookkeeping: the per-model price table, the cost of one reply, and
 * the per-currency totals of a debate. Amounts are whole numbers of
 * 1e-10 currency units, so the source's rounding to ten decimals is exact;
 * a price of `p` per million tokens is `p * 10000` units per token.
 */
module Cost {
  import opened Wrappers
  import opened Payloads

  /** A price: its currency and the input and output price per token, in 1e-10 units. */
  datatype Price = Price(currency: string, perInputToken: nat, perOutputToken: nat)

  /** The cost of one reply, in 1e-10 units. */
  datatype Cost = Cost(currency: string, input: nat, output: nat, total: nat)

  const Eur := "EUR"
  const Usd := "USD"

  /** The model names with a configured price. */
  const PricedModels: set<string> := {"qwen32b", "qwencoder", "llama33", "llama8b", "kimi"}

  /**
   * `priceFor(name)` with the default prices (per million tokens: qwen32b
   * 0.08/0.23, qwencoder 0.06/0.22, llama33 0.67/0.67, llama8b 0.10/0.10 in
   * EUR, kimi 0.60/2.50 in USD); any other name is free, in EUR.
   */
  function PriceFor(name: string): (p: Price)
    ensures p.currency == Usd <==> name == "kimi"
    ensures p.currency != Usd ==> p.currency == Eur
    ensures name !in PricedModels ==> p == Price(Eur, 0, 0)
    ensures name in PricedModels ==> p.perInputToken > 0 && p.perOutputToken > 0
  {
    if name == "qwen32b" then Price(Eur, 800, 2300)
    else if name == "qwencoder" then Price(Eur, 600, 2200)
    else if name == "llama33" then Price(Eur, 6700, 6700)
    else if name == "llama8b" then Price(Eur, 1000, 1000)
    else if name == "kimi" then Price(Usd, 6000, 25000)
    else Price(Eur, 0, 0)
  }

  /** `+(usage?.prompt_tokens || 0)`: the prompt token count, 0 when the usage or the count is missing. */
  function PromptTokens(usage: Option<Usage>): (n: nat)
    ensures usage.Some? && usage.value.promptTokens.Some? ==> n == usage.value.promptTokens.value
    ensures usage.None? || usage.value.promptTokens.None? ==> n == 0
  {
    if usage.Some? then usage.value.promptTokens.GetOr(0) else 0
  }

  /** `+(usage?.completion_tokens || 0)`: the completion token count, 0 when the usage or the count is missing. */
  function CompletionTokens(usage: Option<Usage>): (n: nat)
    ensures usage.Some? && usage.value.completionTokens.Some? ==> n == usage.value.completionTokens.value
    ensures usage.None? || usage.value.completionTokens.None? ==> n == 0
  {
    if usage.Some? then usage.value.completionTokens.GetOr(0) else 0
  }

  /**
   * `estimateCost(name, usage)`: the currency is the price's; the input cost
   * is the prompt tokens times the input price, the output cost the
   * completion tokens times the output price, and the total their sum.
   */
  function EstimateCost(name: string, usage: Option<Usage>): (c: Cost)
    ensures c.currency == PriceFor(name).currency
    ensures c.input == PromptTokens(usage) * PriceFor(name).perInputToken
    ensures c.output == CompletionTokens(usage) * PriceFor(name).perOutputToken
    ensures c.total == c.input + c.output
  {
    var p := PriceFor(name);
    var cin := PromptTokens(usage) * p.perInputToken;
    var cout := CompletionTokens(usage) * p.perOutputToken;
    Cost(p.currency, cin, cout, cin + cout)
  }

  /** A model without a configured price costs nothing, in EUR, whatever the usage. */
  lemma UnpricedModelIsFree(name: string, usage: Option<Usage>)
    requires name !in PricedModels
    ensures EstimateCost(name, usage) == Cost(Eur, 0, 0, 0)
  {
  }

  /** A missing usage, or one without token counts, costs nothing. */
  lemma MissingUsageIsFree(name: string)
    ensures EstimateCost(name, None) == Cost(PriceFor(name).currency, 0, 0, 0)
    ensures EstimateCost(name, Some(NoUsage)) == Cost(PriceFor(name).currency, 0, 0, 0)
  {
  }

  /** The input cost depends on the prompt tokens only, and the output cost on the completion tokens only. */
  lemma CostSidesAreIndependent(name: string, u: Option<Usage>, v: Option<Usage>)
    ensures PromptTokens(u) == PromptTokens(v) ==> EstimateCost(name, u).input == EstimateCost(name, v).input
    ensures CompletionTokens(u) == CompletionTokens(v) ==> EstimateCost(name, u).output == EstimateCost(name, v).output
  {
  }

  /** Both sides are linear: the cost of the summed token counts is the sum of the costs. */
  lemma CostIsLinear(name: string, u: Option<Usage>, v: Option<Usage>, w: Option<Usage>)
    requires PromptTokens(w) == PromptTokens(u) + PromptTokens(v)
    requires CompletionTokens(w) == CompletionTokens(u) + CompletionTokens(v)
    ensures EstimateCost(name, w).input == EstimateCost(name, u).input + EstimateCost(name, v).input
    ensures EstimateCost(name, w).output == EstimateCost(name, u).output + EstimateCost(name, v).output
    ensures EstimateCost(name, w).total == EstimateCost(name, u).total + EstimateCost(name, v).total
  {
    var p := PriceFor(name);
    Distributes(PromptTokens(u), PromptTokens(v), p.perInputToken);
    Distributes(CompletionTokens(u), CompletionTokens(v), p.perOutputToken);
  }

  /** Proof helper for CostIsLinear: multiplication distributes over addition. */
  lemma Distributes(a: nat, b: nat, k: nat)
    ensures (a + b) * k == a * k + b * k
  {
  }

  // ---------------------------------------------------------------------
  // aggregateTotals
  // ---------------------------------------------------------------------

  /** `it.cost?.currency || "EUR"`: an item without a cost, or with an empty currency, counts as EUR. */
  function CurrencyKey(c: Option<Cost>): (k: string)
    ensures k != ""
    ensures c.Some? && c.value.currency != "" ==> k == c.value.currency
    ensures c.None? || c.value.currency == "" ==> k == Eur
  {
    if c.Some? && c.value.currency != "" then c.value.currency else Eur
  }

  /** `it.cost?.total || 0`. */
  function TotalOf(c: Option<Cost>): (t: nat)
    ensures c.Some? ==> t == c.value.total
    ensures c.None? ==> t == 0
  {
    if c.Some? then c.value.total else 0
  }

  /** The totals after the items in order: each item adds its total to its currency's entry, created at 0. */
  function Totals(items: seq<Option<Cost>>): (m: map<string, nat>)
    ensures items == [] ==> m == map[]
  {
    if items == [] then map[]
    else
      var m := Totals(items[..|items| - 1]);
      var last := items[|items| - 1];
      var key := CurrencyKey(last);
      m[key := (if key in m then m[key] else 0) + TotalOf(last)]
  }

  /** `aggregateTotals(items)`: builds the totals map entry by entry, in one pass over the items. */
  method AggregateTotals(items: seq<Option<Cost>>) returns (out: map<string, nat>)
    ensures out == Totals(items)
  {
    out := map[];
    var i := 0;
    while i < |items|
      invariant 0 <= i <= |items|
      invariant out == Totals(items[..i])
    {
      var c := CurrencyKey(items[i]);
      var t := TotalOf(items[i]);
      if c !in out {
        out := out[c := 0];
      }
      out := out[c := out[c] + t];
      assert items[..i + 1][..i] == items[..i];
      i := i + 1;
    }
    assert items[..i] == items;
  }

  /** The currencies of the items, missing ones counted as EUR. */
  function Currencies(items: seq<Option<Cost>>): set<string> {
    set i | 0 <= i < |items| :: CurrencyKey(items[i])
  }

  /** The sum of the totals of the items in currency `c`, an independent reference for each entry. */
  function SumFor(items: seq<Option<Cost>>, c: string): nat {
    if items == [] then 0
    else (if CurrencyKey(items[0]) == c then TotalOf(items[0]) else 0) + SumFor(items[1..], c)
  }

  /** Summing after appending one item adds that item's share. */
  lemma {:induction false} SumForSnoc(items: seq<Option<Cost>>, x: Option<Cost>, c: string)
    ensures SumFor(items + [x], c) == SumFor(items, c) + (if CurrencyKey(x) == c then TotalOf(x) else 0)
  {
    if items != [] {
      assert (items + [x])[1..] == items[1..] + [x];
      SumForSnoc(items[1..], x, c);
    } else {
      assert ([] + [x])[1..] == [];
    }
  }

  /**
   * The totals have one key per currency seen, and each key's value is the
   * sum of the totals of that currency's items.
   */
  lemma {:induction false} TotalsAreSumsPerCurrency(items: seq<Option<Cost>>)
    ensures Totals(items).Keys == Currencies(items)
    ensures forall c :: c in Totals(items) ==> Totals(items)[c] == SumFor(items, c)
  {
    if items != [] {
      var init, last := items[..|items| - 1], items[|items| - 1];
      assert items == init + [last];
      TotalsAreSumsPerCurrency(init);
      forall c ensures SumFor(items, c) == SumFor(init, c) + (if CurrencyKey(last) == c then TotalOf(last) else 0) {
        SumForSnoc(init, last, c);
      }
      assert Currencies(items) == Currencies(init) + {CurrencyKey(last)} by {
        forall c | c in Currencies(items) ensures c in Currencies(init) + {CurrencyKey(last)} {
          var i :| 0 <= i < |items| && CurrencyKey(items[i]) == c;
          if i < |init| { assert init[i] == items[i]; }
        }
        forall c | c in Currencies(init) ensures c in Currencies(items) {
          var i :| 0 <= i < |init| && CurrencyKey(init[i]) == c;
          assert items[i] == init[i];
        }
      }
      forall c | c !in Currencies(init) ensures SumFor(init, c) == 0 {
        SumForAbsent(init, c);
      }
    }
  }

  /** A currency no item has sums to 0. */
  lemma {:induction false} SumForAbsent(items: seq<Option<Cost>>, c: string)
    requires c !in Currencies(items)
    ensures SumFor(items, c) == 0
  {
    if items != [] {
      assert CurrencyKey(items[0]) != c;
      forall i | 0 <= i < |items[1..]| ensures CurrencyKey(items[1..][i]) != c {
        assert items[1..][i] == items[i + 1];
      }
      SumForAbsent(items[1..], c);
    }
  }
}
