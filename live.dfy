/**
 * The two small classifiers of the live-prediction panel: the risk band of
 * a fused churn probability, and the plain-language explanation built from
 * the submitted form values.
 */
module Live {
  import opened Text

  /** `riskBand(p)`: a label and the badge's CSS class. */
  datatype RiskBand = High | Medium | Low
  {
    function Label(): string {
      match this
      case High => "HIGH"
      case Medium => "MEDIUM"
      case Low => "LOW"
    }

    function Cls(): string {
      match this
      case High => "risk-high"
      case Medium => "risk-medium"
      case Low => "risk-low"
    }

    /** Position on the scale from low to high risk. */
    function Rank(): nat {
      match this
      case Low => 0
      case Medium => 1
      case High => 2
    }
  }

  /** The band of a probability, with 0.85 and 0.60 as inclusive lower bounds. */
  function RiskBandOf(p: real): (b: RiskBand)
    ensures b == High <==> p >= 0.85
    ensures b == Medium <==> 0.60 <= p < 0.85
    ensures b == Low <==> p < 0.60
  {
    if p >= 0.85 then High
    else if p >= 0.60 then Medium
    else Low
  }

  /** The badge text, `${band.label} RISK`. */
  function BadgeText(p: real): (s: string)
    ensures s == "HIGH RISK" || s == "MEDIUM RISK" || s == "LOW RISK"
    ensures s == "HIGH RISK" <==> p >= 0.85
    ensures s == "MEDIUM RISK" <==> 0.60 <= p < 0.85
    ensures s == "LOW RISK" <==> p < 0.60
  {
    RiskBandOf(p).Label() + " RISK"
  }

  /** A higher probability never gets a lower band. */
  lemma RiskBandMonotone(p: real, q: real)
    requires p <= q
    ensures RiskBandOf(p).Rank() <= RiskBandOf(q).Rank()
  {
  }

  /**
   * The form values sent to `/predict_churn`: the first three through
   * `toNum`, the last three through `parseInt`. A NaN is refused before the
   * request, so every field here is a number.
   */
  datatype LivePayload = LivePayload(
    Tenure: real,
    Transactions: real,
    AvgBalance: real,
    LoanHistory: int,
    CreditCardUsage: int,
    DefaultHistory: int)

  const LowBalance := "Low balance"
  const LowTransactions := "Low transactions"
  const ShortTenure := "New customer (short tenure)"
  const DefaultRecord := "Has default history"
  const Healthy := "Healthy balances/usage & clean history"

  /** The triggered tips, in the fixed order balance, transactions, tenure, default. */
  function Tips(p: LivePayload): seq<string> {
    (if p.AvgBalance < 300000.0 then [LowBalance] else []) +
    (if p.Transactions < 60.0 then [LowTransactions] else []) +
    (if p.Tenure < 3.0 then [ShortTenure] else []) +
    (if p.DefaultHistory == 1 then [DefaultRecord] else [])
  }

  /** The position of a tip in the order `explain` checks the conditions. */
  function TipRank(tip: string): int {
    if tip == LowBalance then 0
    else if tip == LowTransactions then 1
    else if tip == ShortTenure then 2
    else if tip == DefaultRecord then 3
    else 4
  }

  /**
   * A tip is shown exactly when its condition holds, every shown tip is one
   * of the four, and they appear in strictly increasing check order, so
   * none is repeated.
   */
  lemma TipsSpec(p: LivePayload)
    ensures LowBalance in Tips(p) <==> p.AvgBalance < 300000.0
    ensures LowTransactions in Tips(p) <==> p.Transactions < 60.0
    ensures ShortTenure in Tips(p) <==> p.Tenure < 3.0
    ensures DefaultRecord in Tips(p) <==> p.DefaultHistory == 1
    ensures forall i :: 0 <= i < |Tips(p)| ==> TipRank(Tips(p)[i]) < 4
    ensures forall i, j :: 0 <= i < j < |Tips(p)| ==> TipRank(Tips(p)[i]) < TipRank(Tips(p)[j])
  {
    Distinct();
  }

  /** The four tips and the healthy message are five different texts. */
  lemma Distinct()
    ensures TipRank(LowBalance) == 0 && TipRank(LowTransactions) == 1
    ensures TipRank(ShortTenure) == 2 && TipRank(DefaultRecord) == 3 && TipRank(Healthy) == 4
  {
    assert |LowBalance| == 11 && |LowTransactions| == 16 && |ShortTenure| == 27;
    assert |DefaultRecord| == 19 && |Healthy| == 38;
  }

  /** What `explain` shows: the triggered tips, or the single healthy message when none fire. */
  function Shown(p: LivePayload): seq<string> {
    if Tips(p) == [] then [Healthy] else Tips(p)
  }

  /** `explain(payload)`: collect the triggered tips with `push`, fall back to the healthy message, join with " + ". */
  method Explain(p: LivePayload) returns (text: string)
    ensures text == Join(Shown(p), " + ")
  {
    var tips: seq<string> := [];
    if p.AvgBalance < 300000.0 { tips := tips + [LowBalance]; }
    if p.Transactions < 60.0 { tips := tips + [LowTransactions]; }
    if p.Tenure < 3.0 { tips := tips + [ShortTenure]; }
    if p.DefaultHistory == 1 { tips := tips + [DefaultRecord]; }
    assert tips == Tips(p);
    if |tips| == 0 { tips := tips + [Healthy]; }
    text := Join(tips, " + ");
  }

  /** With nothing triggered the explanation is exactly the healthy message. */
  lemma ExplainHealthy(p: LivePayload)
    requires p.AvgBalance >= 300000.0 && p.Transactions >= 60.0 && p.Tenure >= 3.0 && p.DefaultHistory != 1
    ensures Join(Shown(p), " + ") == Healthy
  {
  }

  /** The healthy message appears only when no tip fires, and then it is the whole explanation. */
  lemma HealthyOnlyAlone(p: LivePayload)
    ensures Healthy in Shown(p) <==> Tips(p) == []
  {
    Distinct();
  }
}
