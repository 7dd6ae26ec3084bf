/** Pricing a transaction and pricing its replacements: the four stages that the submitter puts
    a transactor's gas fields through, and what repeated bumps add up to. */
module GasPrice {
  import opened Wrappers
  import opened Numbers

  // ----- transactions -----

  /** What a replacement must not change. */
  datatype Payload = Payload(nonce: nat, to: Option<nat>, value: nat, data: seq<nat>)

  datatype Pricing = Legacy(gasPrice: nat) | Dynamic(feeCap: nat, tipCap: nat)

  datatype Tx = Tx(payload: Payload, pricing: Pricing, gas: nat)

  /** A chain's configuration. `bump` is the increase by the configured percentage. */
  datatype Config = Config(dynamic: bool, bump: nat -> nat, minGasPrice: nat, maxGasPrice: nat)

  /** Bumping keeps order and never lowers a price. */
  ghost predicate IsBump(bump: nat -> nat)
  {
    (forall x: nat :: x <= bump(x)) && (forall x: nat, y: nat :: x <= y ==> bump(x) <= bump(y))
  }

  /** The node's suggestions, each of which may fail. */
  datatype Oracle = Oracle(price: Result<nat>, tip: Result<nat>)

  datatype Fees = Fees(gasPrice: Option<nat>, feeCap: Option<nat>, tipCap: Option<nat>)

  const NO_FEES := Fees(None, None, None)

  const MIN_TIP_CAP := 10

  function MaxOfBig(a: Option<nat>, b: nat): nat
  {
    if a.Some? then Max(a.value, b) else b
  }

  // ----- the stages -----

  function BumpFromPrev(f: Fees, prev: Option<Pricing>, cfg: Config): Fees
  {
    if prev == None then f
    else if cfg.dynamic then
      match prev.value
      case Dynamic(fee, tip) => f.(feeCap := Some(cfg.bump(fee)), tipCap := Some(cfg.bump(tip)))
      case Legacy(price) => f.(feeCap := Some(cfg.bump(price)), tipCap := Some(cfg.bump(price)))
    else
      match prev.value
      case Dynamic(fee, _) => f.(gasPrice := Some(cfg.bump(fee)))
      case Legacy(price) => f.(gasPrice := Some(cfg.bump(price)))
  }

  /** An error in the middle leaves what was set before it. */
  function ApplyOracle(f: Fees, oracle: Oracle, cfg: Config): (Fees, bool)
  {
    if cfg.dynamic then
      if oracle.price.Err? then (f, false)
      else
        var f := f.(feeCap := Some(MaxOfBig(f.feeCap, oracle.price.value)));
        if oracle.tip.Err? then (f, false)
        else (f.(tipCap := Some(MaxOfBig(f.tipCap, oracle.tip.value))), true)
    else if oracle.price.Err? then (f, false)
    else (f.(gasPrice := Some(MaxOfBig(f.gasPrice, oracle.price.value))), true)
  }

  function AtLeast(a: Option<nat>, least: nat): Option<nat>
  {
    if a == None || a.value < least then Some(least) else a
  }

  function ApplyFloor(f: Fees, cfg: Config): Fees
  {
    if cfg.dynamic then
      f.(feeCap := AtLeast(f.feeCap, cfg.minGasPrice), tipCap := AtLeast(f.tipCap, MIN_TIP_CAP))
    else f.(gasPrice := AtLeast(f.gasPrice, cfg.minGasPrice))
  }

  predicate Complete(f: Fees, cfg: Config)
  {
    if cfg.dynamic then f.feeCap.Some? && f.tipCap.Some? else f.gasPrice.Some?
  }

  function ApplyCeil(f: Fees, cfg: Config): (Fees, bool)
    requires Complete(f, cfg)
  {
    if cfg.dynamic then
      if f.feeCap.value > cfg.maxGasPrice then (f, false)
      else if f.tipCap.value > f.feeCap.value then (f.(tipCap := f.feeCap), true)
      else (f, true)
    else (f, f.gasPrice.value <= cfg.maxGasPrice)
  }

  function SetGasPrice(f: Fees, prev: Option<Pricing>, oracle: Oracle, cfg: Config): (Fees, bool)
  {
    var (f, ok) := ApplyOracle(BumpFromPrev(f, prev, cfg), oracle, cfg);
    if !ok then (f, false) else ApplyCeil(ApplyFloor(f, cfg), cfg)
  }

  // ----- the transactor that the stages change -----

  class Transactor {
    var gasPrice: Option<nat>
    var gasFeeCap: Option<nat>
    var gasTipCap: Option<nat>

    ghost function Now(): Fees
      reads this
    {
      Fees(gasPrice, gasFeeCap, gasTipCap)
    }

    constructor (f: Fees)
      ensures Now() == f
    {
      gasPrice, gasFeeCap, gasTipCap := f.gasPrice, f.feeCap, f.tipCap;
    }

    method BumpGasFromPrevTx(prev: Option<Pricing>, cfg: Config)
      modifies this
      ensures Now() == BumpFromPrev(old(Now()), prev, cfg)
    {
      if prev == None {
        return;
      }
      if cfg.dynamic {
        match prev.value
        case Dynamic(fee, tip) =>
          gasFeeCap := Some(cfg.bump(fee));
          gasTipCap := Some(cfg.bump(tip));
        case Legacy(price) =>
          gasFeeCap := Some(cfg.bump(price));
          gasTipCap := Some(cfg.bump(price));
      } else {
        match prev.value
        case Dynamic(fee, _) => gasPrice := Some(cfg.bump(fee));
        case Legacy(price) => gasPrice := Some(cfg.bump(price));
      }
    }

    method ApplyGasFromOracle(oracle: Oracle, cfg: Config) returns (ok: bool)
      modifies this
      ensures (Now(), ok) == ApplyOracle(old(Now()), oracle, cfg)
    {
      if cfg.dynamic {
        if oracle.price.Err? {
          return false;
        }
        gasFeeCap := Some(MaxOfBig(gasFeeCap, oracle.price.value));
        if oracle.tip.Err? {
          return false;
        }
        gasTipCap := Some(MaxOfBig(gasTipCap, oracle.tip.value));
      } else {
        if oracle.price.Err? {
          return false;
        }
        gasPrice := Some(MaxOfBig(gasPrice, oracle.price.value));
      }
      ok := true;
    }

    method ApplyGasFloor(cfg: Config)
      modifies this
      ensures Now() == ApplyFloor(old(Now()), cfg)
    {
      if cfg.dynamic {
        if gasFeeCap == None || gasFeeCap.value < cfg.minGasPrice {
          gasFeeCap := Some(cfg.minGasPrice);
        }
        if gasTipCap == None || gasTipCap.value < MIN_TIP_CAP {
          gasTipCap := Some(MIN_TIP_CAP);
        }
      } else if gasPrice == None || gasPrice.value < cfg.minGasPrice {
        gasPrice := Some(cfg.minGasPrice);
      }
    }

    method ApplyGasCeil(cfg: Config) returns (ok: bool)
      requires Complete(Now(), cfg)
      modifies this
      ensures (Now(), ok) == ApplyCeil(old(Now()), cfg)
    {
      if cfg.dynamic {
        if gasFeeCap.value > cfg.maxGasPrice {
          return false;
        }
        if gasTipCap.value > gasFeeCap.value {
          gasTipCap := gasFeeCap;
        }
      } else if gasPrice.value > cfg.maxGasPrice {
        return false;
      }
      ok := true;
    }

    method SetPrice(prev: Option<Pricing>, oracle: Oracle, cfg: Config) returns (ok: bool)
      modifies this
      ensures (Now(), ok) == SetGasPrice(old(Now()), prev, oracle, cfg)
    {
      BumpGasFromPrevTx(prev, cfg);
      ok := ApplyGasFromOracle(oracle, cfg);
      if !ok {
        return;
      }
      ApplyGasFloor(cfg);
      ok := ApplyGasCeil(cfg);
    }
  }

  // ----- what an accepted price satisfies -----

  /** The rule of the "Specification" section of EIP-1559, and the configured bounds. */
  predicate Acceptable(p: Pricing, cfg: Config)
  {
    match p
    case Dynamic(fee, tip) => cfg.minGasPrice <= fee <= cfg.maxGasPrice && tip <= fee
    case Legacy(price) => cfg.minGasPrice <= price <= cfg.maxGasPrice
  }

  function PricingOf(f: Fees, cfg: Config): Pricing
    requires Complete(f, cfg)
  {
    if cfg.dynamic then Dynamic(f.feeCap.value, f.tipCap.value) else Legacy(f.gasPrice.value)
  }

  /** What has to be paid at most per unit of gas. */
  function Cap(p: Pricing): nat
  {
    match p
    case Dynamic(fee, _) => fee
    case Legacy(price) => price
  }

  function Tip(p: Pricing): nat
  {
    match p
    case Dynamic(_, tip) => tip
    case Legacy(price) => price
  }

  lemma AcceptedPrice(f: Fees, prev: Option<Pricing>, oracle: Oracle, cfg: Config)
    requires SetGasPrice(f, prev, oracle, cfg).1
    ensures Complete(SetGasPrice(f, prev, oracle, cfg).0, cfg)
    ensures Acceptable(PricingOf(SetGasPrice(f, prev, oracle, cfg).0, cfg), cfg)
  {
  }

  /** The least cap and tip that the previous transaction, or what was set before, asks for. */
  function Least(a: Option<nat>): nat
  {
    if a.Some? then a.value else 0
  }

  /** Exactly what is accepted: the cap is the largest of what bumping, node and configuration
      ask for, and so is the tip, but never more than the cap. */
  lemma PriceIs(f: Fees, prev: Option<Pricing>, oracle: Oracle, cfg: Config)
    requires SetGasPrice(f, prev, oracle, cfg).1
    ensures oracle.price.Ok? && (cfg.dynamic ==> oracle.tip.Ok?)
    ensures Complete(SetGasPrice(f, prev, oracle, cfg).0, cfg)
    ensures var p := PricingOf(SetGasPrice(f, prev, oracle, cfg).0, cfg);
            var cap := if prev.Some? then cfg.bump(Cap(prev.value))
                       else Least(if cfg.dynamic then f.feeCap else f.gasPrice);
            var tip := if prev.Some? then cfg.bump(Tip(prev.value)) else Least(f.tipCap);
      && p.Dynamic? == cfg.dynamic
      && Cap(p) == Max(Max(cap, oracle.price.value), cfg.minGasPrice)
      && (cfg.dynamic ==> Tip(p) == Min(Max(Max(tip, oracle.tip.value), 10), Cap(p)))
  {
    assert prev.Some? && cfg.dynamic ==>
      var bumped := BumpFromPrev(f, prev, cfg);
      bumped.feeCap == Some(cfg.bump(Cap(prev.value))) && bumped.tipCap == Some(cfg.bump(Tip(prev.value)));
  }

  /** A replacement pays at least the bumped cap and the bumped tip, in spite of the clipping of
      the tip, if the replaced one tipped no more than its cap. */
  lemma ReplacementPaysMore(f: Fees, prev: Pricing, oracle: Oracle, cfg: Config)
    requires IsBump(cfg.bump) && Tip(prev) <= Cap(prev)
    requires SetGasPrice(f, Some(prev), oracle, cfg).1
    ensures var p := PricingOf(SetGasPrice(f, Some(prev), oracle, cfg).0, cfg);
      && Cap(p) >= cfg.bump(Cap(prev)) && Tip(p) >= cfg.bump(Tip(prev)) && Tip(p) <= Cap(p)
  {
    assert cfg.bump(Tip(prev)) <= cfg.bump(Cap(prev));
  }

  /** When pricing fails although the node answered: exactly above the ceiling. */
  lemma RefusedIff(f: Fees, prev: Option<Pricing>, oracle: Oracle, cfg: Config)
    requires oracle.price.Ok? && (cfg.dynamic ==> oracle.tip.Ok?)
    ensures SetGasPrice(f, prev, oracle, cfg).1 <==>
      var bumped := BumpFromPrev(f, prev, cfg);
      Max(MaxOfBig(if cfg.dynamic then bumped.feeCap else bumped.gasPrice, oracle.price.value), cfg.minGasPrice)
        <= cfg.maxGasPrice
  {
  }

  /** The ceiling is final: a transaction whose bumped cap is above it can never be replaced. */
  lemma CeilingIsFinal(f: Fees, prev: Pricing, oracle: Oracle, cfg: Config)
    requires cfg.bump(Cap(prev)) > cfg.maxGasPrice
    ensures !SetGasPrice(f, Some(prev), oracle, cfg).1
  {
  }

  // ----- SubmitTransaction ignores the error -----

  /** The price that a first submission goes out with: the error is only traced. */
  function FirstPrice(f: Fees, oracle: Oracle, cfg: Config): Fees
  {
    SetGasPrice(f, None, oracle, cfg).0
  }

  /** The first fees are complete exactly when the node answers. Without a suggested price none
      is set, so the contract binding chooses one by itself; without a suggested tip the cap is
      the suggestion as it came. Neither minimum nor maximum is looked at in those cases. */
  lemma FirstFees(oracle: Oracle, cfg: Config)
    ensures Complete(FirstPrice(NO_FEES, oracle, cfg), cfg)
       <==> oracle.price.Ok? && (cfg.dynamic ==> oracle.tip.Ok?)
    ensures oracle.price.Err? ==> FirstPrice(NO_FEES, oracle, cfg) == NO_FEES
    ensures oracle.price.Ok? && cfg.dynamic && oracle.tip.Err? ==>
      FirstPrice(NO_FEES, oracle, cfg) == Fees(None, Some(oracle.price.value), None)
  {
  }

  /** So, from a node that answers, the first price is within the configured maximum exactly when
      the node's suggestion and the configured minimum are. */
  lemma FirstPriceIff(oracle: Oracle, cfg: Config)
    requires oracle.price.Ok? && (cfg.dynamic ==> oracle.tip.Ok?)
    ensures Complete(FirstPrice(NO_FEES, oracle, cfg), cfg)
    ensures Cap(PricingOf(FirstPrice(NO_FEES, oracle, cfg), cfg)) <= cfg.maxGasPrice
       <==> Max(oracle.price.value, cfg.minGasPrice) <= cfg.maxGasPrice
  {
  }

  /** And a transaction that went out above it can never be bumped. */
  lemma OverpricedIsStuck(oracle: Oracle, later: Oracle, cfg: Config)
    requires IsBump(cfg.bump) && oracle.price.Ok? && (cfg.dynamic ==> oracle.tip.Ok?)
    requires Max(oracle.price.value, cfg.minGasPrice) > cfg.maxGasPrice
    ensures var p := PricingOf(FirstPrice(NO_FEES, oracle, cfg), cfg);
      !SetGasPrice(NO_FEES, Some(p), later, cfg).1
  {
    FirstPriceIff(oracle, cfg);
    var p := PricingOf(FirstPrice(NO_FEES, oracle, cfg), cfg);
    assert Cap(p) <= cfg.bump(Cap(p));
    CeilingIsFinal(NO_FEES, p, later, cfg);
  }

  // ----- bumping one transaction again and again -----

  /** What one pass of the queue meets with for one transaction. */
  datatype Pass = Pass(elapsed: bool, estimate: Result<nat>, oracle: Oracle, signed: bool)

  /** The transaction unchanged before its interval has elapsed, otherwise its replacement. */
  function BumpTx(tx: Tx, pass: Pass, cfg: Config): Result<Tx>
  {
    if !pass.elapsed then Ok(tx)
    else if pass.estimate.Err? then Err
    else
      var (f, ok) := SetGasPrice(NO_FEES, Some(tx.pricing), pass.oracle, cfg);
      if !ok then Err
      else if !pass.signed then Err
      else Ok(Tx(tx.payload, PricingOf(f, cfg), pass.estimate.value))
  }

  /** Passes that fail leave the stored transaction as it is. */
  function BumpAll(tx: Tx, passes: seq<Pass>, cfg: Config): Tx
  {
    if passes == [] then tx
    else
      var before := BumpAll(tx, passes[..|passes| - 1], cfg);
      var r := BumpTx(before, passes[|passes| - 1], cfg);
      if r.Ok? then r.value else before
  }

  /** The number of replacements among the passes. */
  function Replacements(tx: Tx, passes: seq<Pass>, cfg: Config): nat
  {
    if passes == [] then 0
    else
      var last := passes[|passes| - 1];
      var before := BumpAll(tx, passes[..|passes| - 1], cfg);
      Replacements(tx, passes[..|passes| - 1], cfg)
      + if last.elapsed && BumpTx(before, last, cfg).Ok? then 1 else 0
  }

  /** `bump` applied `n` times. */
  function Bumped(bump: nat -> nat, n: nat, x: nat): nat
  {
    if n == 0 then x else bump(Bumped(bump, n - 1, x))
  }

  lemma BumpStep(tx: Tx, pass: Pass, cfg: Config)
    requires IsBump(cfg.bump) && Tip(tx.pricing) <= Cap(tx.pricing)
    requires pass.elapsed && BumpTx(tx, pass, cfg).Ok?
    ensures var tx' := BumpTx(tx, pass, cfg).value;
      && tx'.payload == tx.payload && tx'.gas == pass.estimate.value && Acceptable(tx'.pricing, cfg)
      && Tip(tx'.pricing) <= Cap(tx'.pricing)
      && Cap(tx'.pricing) >= cfg.bump(Cap(tx.pricing)) && Tip(tx'.pricing) >= cfg.bump(Tip(tx.pricing))
  {
    AcceptedPrice(NO_FEES, Some(tx.pricing), pass.oracle, cfg);
    ReplacementPaysMore(NO_FEES, tx.pricing, pass.oracle, cfg);
  }

  /** When a transaction can be bumped: always before its interval has elapsed, when it stays as it
      is, and then exactly if estimating and signing succeed, the node answers, and the new price is
      not above the maximum. */
  lemma BumpedIff(tx: Tx, pass: Pass, cfg: Config)
    ensures BumpTx(tx, pass, cfg).Ok? <==>
      || !pass.elapsed
      || (&& pass.estimate.Ok? && pass.signed
          && pass.oracle.price.Ok? && (cfg.dynamic ==> pass.oracle.tip.Ok?)
          && Max(Max(cfg.bump(Cap(tx.pricing)), pass.oracle.price.value), cfg.minGasPrice) <= cfg.maxGasPrice)
    ensures !pass.elapsed ==> BumpTx(tx, pass, cfg) == Ok(tx)
    ensures pass.elapsed && BumpTx(tx, pass, cfg).Ok? ==> BumpTx(tx, pass, cfg).value.pricing.Dynamic? == cfg.dynamic
  {
    if pass.oracle.price.Ok? && (cfg.dynamic ==> pass.oracle.tip.Ok?) {
      RefusedIff(NO_FEES, Some(tx.pricing), pass.oracle, cfg);
    }
  }

  /** At least what the original price comes to after `n` bumps. */
  predicate PaysBumped(now: Pricing, original: Pricing, n: nat, bump: nat -> nat)
  {
    && Cap(now) >= Bumped(bump, n, Cap(original))
    && Tip(now) >= Bumped(bump, n, Tip(original))
    && Tip(now) <= Cap(now)
  }

  /** Over any passes: the payload never changes, cap and tip are at least the original ones
      bumped once per replacement, and after a replacement the price is acceptable. */
  lemma {:induction false} BumpsAddUp(tx: Tx, passes: seq<Pass>, cfg: Config)
    requires IsBump(cfg.bump) && Tip(tx.pricing) <= Cap(tx.pricing)
    ensures BumpAll(tx, passes, cfg).payload == tx.payload
    ensures PaysBumped(BumpAll(tx, passes, cfg).pricing, tx.pricing, Replacements(tx, passes, cfg), cfg.bump)
    ensures Replacements(tx, passes, cfg) == 0 ==> BumpAll(tx, passes, cfg) == tx
    ensures Replacements(tx, passes, cfg) > 0 ==> Acceptable(BumpAll(tx, passes, cfg).pricing, cfg)
  {
    if passes == [] {
    } else {
      var front, last := passes[..|passes| - 1], passes[|passes| - 1];
      BumpsAddUp(tx, front, cfg);
      var before, n := BumpAll(tx, front, cfg), Replacements(tx, front, cfg);
      if last.elapsed && BumpTx(before, last, cfg).Ok? {
        BumpStep(before, last, cfg);
        assert Bumped(cfg.bump, n + 1, Cap(tx.pricing)) == cfg.bump(Bumped(cfg.bump, n, Cap(tx.pricing)));
        assert Bumped(cfg.bump, n + 1, Tip(tx.pricing)) == cfg.bump(Bumped(cfg.bump, n, Tip(tx.pricing)));
      }
    }
  }

  /** One more replacement is dearer by one at least, if bumping raises every price that can be
      accepted. */
  ghost predicate Raises(cfg: Config)
  {
    forall x: nat :: cfg.minGasPrice <= x <= cfg.maxGasPrice ==> x < cfg.bump(x)
  }

  lemma {:induction false} BumpsRunOut(tx: Tx, passes: seq<Pass>, cfg: Config)
    requires IsBump(cfg.bump) && Raises(cfg) && Tip(tx.pricing) <= Cap(tx.pricing)
    ensures var n, cap := Replacements(tx, passes, cfg), Cap(BumpAll(tx, passes, cfg).pricing);
      n > 0 ==> cfg.minGasPrice + n - 1 <= cap <= cfg.maxGasPrice
  {
    if passes == [] {
    } else {
      var front, last := passes[..|passes| - 1], passes[|passes| - 1];
      BumpsRunOut(tx, front, cfg);
      BumpsAddUp(tx, front, cfg);
      var before := BumpAll(tx, front, cfg);
      if last.elapsed && BumpTx(before, last, cfg).Ok? {
        BumpStep(before, last, cfg);
      }
    }
  }

  /** `n` passes over a transaction whose interval has always elapsed, with a node that suggests
      nothing. */
  function QuietPasses(n: nat): (passes: seq<Pass>)
    ensures |passes| == n
  {
    seq(n, _ => Pass(true, Ok(0), Oracle(Ok(0), Ok(0)), true))
  }

  /** A price in the range that bumping leaves as it is will be replaced as often as one likes. */
  lemma {:induction false} ReplacedForever(tx: Tx, n: nat, cfg: Config)
    requires cfg.minGasPrice <= Cap(tx.pricing) <= cfg.maxGasPrice
    requires cfg.bump(Cap(tx.pricing)) == Cap(tx.pricing)
    ensures Replacements(tx, QuietPasses(n), cfg) == n
    ensures Cap(BumpAll(tx, QuietPasses(n), cfg).pricing) == Cap(tx.pricing)
  {
    if n == 0 {
    } else {
      ReplacedForever(tx, n - 1, cfg);
      assert QuietPasses(n)[..n - 1] == QuietPasses(n - 1);
    }
  }

  ghost predicate AtMost(bound: nat, cfg: Config)
  {
    forall tx: Tx, passes: seq<Pass> ::
      Tip(tx.pricing) <= Cap(tx.pricing) ==> Replacements(tx, passes, cfg) <= bound
  }

  /** There is an end to replacing exactly when bumping raises every price from the configured
      minimum to the maximum. */
  lemma BumpsRunOutIff(cfg: Config)
    requires IsBump(cfg.bump)
    ensures (exists bound: nat :: AtMost(bound, cfg)) <==> Raises(cfg)
  {
    if Raises(cfg) {
      forall tx: Tx, passes: seq<Pass> | Tip(tx.pricing) <= Cap(tx.pricing)
        ensures Replacements(tx, passes, cfg) <= cfg.maxGasPrice + 1
      {
        BumpsRunOut(tx, passes, cfg);
      }
      assert AtMost(cfg.maxGasPrice + 1, cfg);
    } else {
      var x: nat :| cfg.minGasPrice <= x <= cfg.maxGasPrice && !(x < cfg.bump(x));
      var tx := Tx(Payload(0, None, 0, []), Legacy(x), 0);
      forall bound: nat
        ensures !AtMost(bound, cfg)
      {
        ReplacedForever(tx, bound + 1, cfg);
      }
    }
  }

  /** The product with the factor num / den, rounded down. A double is such a factor, with a power
      of two for a denominator. */
  function FactorBump(num: nat, den: nat): nat -> nat
    requires den > 0
  {
    x => x * num / den
  }

  lemma ProductGrows(x: nat, y: nat, z: nat)
    requires x <= y
    ensures x * z <= y * z
  {
  }

  lemma QuotientAtLeast(a: nat, b: nat, den: nat)
    requires den > 0
    ensures a / den >= b <==> a >= b * den
  {
    assert a == a / den * den + a % den;
    if a / den >= b {
      ProductGrows(b, a / den, den);
    } else {
      ProductGrows(a / den + 1, b, den);
    }
  }

  lemma FactorBumpAt(num: nat, den: nat, x: nat)
    requires 0 < den <= num
    ensures x <= FactorBump(num, den)(x)
    ensures x < FactorBump(num, den)(x) <==> x * (num - den) >= den
  {
    var share := x * (num - den);
    assert x * num == x * den + share;
    QuotientAtLeast(x * num, x, den);
    QuotientAtLeast(x * num, x + 1, den);
    assert (x + 1) * den == x * den + den;
  }

  lemma FactorBumpMonotone(num: nat, den: nat, x: nat, y: nat)
    requires 0 < den && x <= y
    ensures FactorBump(num, den)(x) <= FactorBump(num, den)(y)
  {
    ProductGrows(x, y, num);
    QuotientAtLeast(x * num, x * num / den, den);
    QuotientAtLeast(y * num, x * num / den, den);
  }

  lemma FactorBumpIsBump(num: nat, den: nat)
    requires 0 < den <= num
    ensures IsBump(FactorBump(num, den))
  {
    forall x: nat
      ensures x <= FactorBump(num, den)(x)
    {
      FactorBumpAt(num, den, x);
    }
    forall x: nat, y: nat | x <= y
      ensures FactorBump(num, den)(x) <= FactorBump(num, den)(y)
    {
      FactorBumpMonotone(num, den, x, y);
    }
  }

  /** A rounded product with a factor of at least one is a bump, and it raises every price from
      `least` on exactly when it raises `least`, that is, when the increase of `least` is one unit
      or more before rounding. */
  lemma FactorBumpRaises(num: nat, den: nat, least: nat)
    requires 0 < den <= num
    ensures IsBump(FactorBump(num, den))
    ensures (forall x: nat :: least <= x ==> x < FactorBump(num, den)(x)) <==> least * (num - den) >= den
  {
    FactorBumpIsBump(num, den);
    FactorBumpAt(num, den, least);
    forall x: nat | least <= x && least * (num - den) >= den
      ensures x < FactorBump(num, den)(x)
    {
      FactorBumpAt(num, den, x);
      ProductGrows(least, x, num - den);
    }
  }

  /** Altogether: with such a factor, replacing comes to an end exactly when the increase of the
      configured minimum is one unit or more before rounding. */
  lemma FactorBumpsRunOutIff(cfg: Config, num: nat, den: nat)
    requires 0 < den <= num
    requires cfg.bump == FactorBump(num, den) && cfg.minGasPrice <= cfg.maxGasPrice
    ensures (exists bound: nat :: AtMost(bound, cfg)) <==> cfg.minGasPrice * (num - den) >= den
  {
    FactorBumpRaises(num, den, cfg.minGasPrice);
    FactorBumpAt(num, den, cfg.minGasPrice);
    assert Raises(cfg) ==> cfg.minGasPrice < cfg.bump(cfg.minGasPrice);
    BumpsRunOutIff(cfg);
  }

  // The double that the source computes for an increase by 20 percent, over 2 to the 52nd. It is
  // just below 6 / 5.
  const TWENTY_PERCENT_NUM := 5404319552844595
  const TWENTY_PERCENT_DEN := 4503599627370496

  /** So an increase by 20 percent leaves a price of 5 as it is, where the exact one makes it 6. */
  lemma TwentyPercentOfFive()
    ensures FactorBump(TWENTY_PERCENT_NUM, TWENTY_PERCENT_DEN)(5) == 5 && FactorBump(120, 100)(5) == 6
  {
  }
}
