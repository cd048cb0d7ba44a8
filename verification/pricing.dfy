/** The cost breakdown shown and stored for a selection: base fare by class,
    a flat convenience fee per ticket, and GST on the base fare only. */
module Pricing {

  const GoldPrice: nat := 150
  const StandardPrice: nat := 100
  const ConveniencePerTicket: nat := 10
  const GstPercent: nat := 18

  /** Amounts in whole rupees. Every base fare is a multiple of 50, so 18%
      of it is a whole number and no rounding is involved. */
  datatype Price = Price(base: nat, gst: nat, convenience: nat, total: nat)

  /** The cost of `gold` Gold and `standard` Standard seats. */
  function Quote(gold: nat, standard: nat): (p: Price)
    ensures p.base == GoldPrice * gold + StandardPrice * standard
    ensures 100 * p.gst == GstPercent * p.base
    ensures p.convenience == ConveniencePerTicket * (gold + standard)
    ensures p.total == p.base + p.gst + p.convenience
    ensures p.total == 187 * gold + 128 * standard
  {
    var base := gold * GoldPrice + standard * StandardPrice;
    var fee := ConveniencePerTicket * (gold + standard);
    var gst := base * GstPercent / 100;
    GstExact(gold, standard);
    Price(base, gst, fee, base + gst + fee)
  }

  /** 18% of a base fare is the whole number 9·(3·gold + 2·standard). */
  lemma GstExact(gold: nat, standard: nat)
    ensures (gold * GoldPrice + standard * StandardPrice) * GstPercent / 100 == 9 * (3 * gold + 2 * standard)
  {
    var k := 3 * gold + 2 * standard;
    assert gold * GoldPrice + standard * StandardPrice == 50 * k;
    assert 50 * k * GstPercent == 100 * (9 * k);
  }

  function Add(p: Price, q: Price): Price {
    Price(p.base + q.base, p.gst + q.gst, p.convenience + q.convenience, p.total + q.total)
  }

  /** Every amount is additive in the seat counts. */
  lemma QuoteLinear(g1: nat, s1: nat, g2: nat, s2: nat)
    ensures Quote(g1 + g2, s1 + s2) == Add(Quote(g1, s1), Quote(g2, s2))
  {
  }

  /** Doubling both counts doubles every amount. */
  lemma QuoteDoubles(g: nat, s: nat)
    ensures var p := Quote(g, s);
            Quote(2 * g, 2 * s) == Price(2 * p.base, 2 * p.gst, 2 * p.convenience, 2 * p.total)
  {
    QuoteLinear(g, s, g, s);
  }

  /** Adding a seat of either class never makes the booking cheaper. */
  lemma QuoteMonotone(g1: nat, s1: nat, g2: nat, s2: nat)
    requires g1 <= g2 && s1 <= s2
    ensures Quote(g1, s1).total <= Quote(g2, s2).total
  {
  }

  /** Two Gold seats and one Standard seat: 400 base, 72 GST, 30 fee, 502 in all. */
  lemma TwoGoldOneStandard()
    ensures Quote(2, 1) == Price(400, 72, 30, 502)
  {
  }
}
