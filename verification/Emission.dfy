/** Emission: the table of reduced subsidies in whole satoshi with its supply lookup, and the unrounded version of the
    same recurrence in DFI. */
module Emission {
  import opened Wrappers

  const PRE_EUNOS_BLOCK_SUBSIDY := 20000000000
  const EUNOS_BASE_BLOCK_SUBSIDY := 40504000000
  const EMISSION_REDUCTION := 1658
  const EMISSION_REDUCTION_INTERVAL := 32690

  datatype Options = Options(eunosHeight: nat, genesisBlockSubsidy: int, eunosFoundationBurn: int)

  const MAIN_NET := Options(894000, 59100003000000000, 26859289307829046)
  const TEST_NET := Options(354950, 30400004000000000, 0)

  // The specification: what each block pays, and the sum of it.

  function Reduction(x: nat): nat {
    x * EMISSION_REDUCTION / 100000
  }

  /** The subsidy after `n` reductions; once nothing can be taken off any more it drops to zero. */
  function Subsidy(n: nat): nat {
    if n == 0 then EUNOS_BASE_BLOCK_SUBSIDY
    else
      var x := Subsidy(n - 1);
      if Reduction(x) == 0 then 0 else x - Reduction(x)
  }

  function BlockSubsidyAt(o: Options, h: nat): int {
    if h == 0 then o.genesisBlockSubsidy
    else if h < o.eunosHeight then PRE_EUNOS_BLOCK_SUBSIDY
    else Subsidy((h - o.eunosHeight) / EMISSION_REDUCTION_INTERVAL)
  }

  /** All that blocks 0 to `h` paid. */
  function PaidUpTo(o: Options, h: nat): int {
    BlockSubsidyAt(o, h) + if h == 0 then 0 else PaidUpTo(o, h - 1)
  }

  // The table.

  /** The values of `Subsidy` up to the first zero. */
  ghost predicate IsTable(s: seq<nat>) {
    && |s| >= 2 && s[|s| - 1] == 0
    && (forall i :: 0 <= i < |s| ==> s[i] == Subsidy(i))
    && (forall i :: 0 <= i < |s| - 1 ==> s[i] > 0)
  }

  function SubsidySum(n: nat): nat {
    if n == 0 then 0 else SubsidySum(n - 1) + Subsidy(n - 1)
  }

  /** Supply before the first block of each reduction. */
  ghost predicate IsMilestones(o: Options, m: seq<int>) {
    forall i :: 0 <= i < |m| ==> m[i] == BaseSupply(o) + EMISSION_REDUCTION_INTERVAL * SubsidySum(i)
  }

  function BaseSupply(o: Options): int {
    o.genesisBlockSubsidy + PRE_EUNOS_BLOCK_SUBSIDY * (o.eunosHeight - 1) - o.eunosFoundationBurn
  }

  /** The values so far and the next one. */
  lemma TableGrows(s: seq<nat>, x: nat)
    requires s != [] && forall i :: 0 <= i < |s| ==> s[i] == Subsidy(i)
    requires var y := s[|s| - 1]; x == if Reduction(y) == 0 then 0 else y - Reduction(y)
    ensures forall i :: 0 <= i < |s + [x]| ==> (s + [x])[i] == Subsidy(i)
  {
    assert s[|s| - 1] == Subsidy(|s| - 1);
    assert Subsidy(|s|) == x;
  }

  /** A table strictly decreases. */
  lemma {:induction false} TableDecreases(s: seq<nat>, i: nat, j: nat)
    requires IsTable(s) && i < j < |s|
    ensures s[i] > s[j]
    decreases j
  {
    assert s[j] == Subsidy(j) && s[j - 1] == Subsidy(j - 1) > 0;
    if i < j - 1 {
      TableDecreases(s, i, j - 1);
    }
  }

  /** The table builder ends, in zero, and 60 satoshi is what comes before. */
  method ComputeBlockReductionSubsidies() returns (s: seq<nat>)
    ensures IsTable(s)
    ensures s[|s| - 2] == 60
  {
    s := [EUNOS_BASE_BLOCK_SUBSIDY];
    while true
      invariant |s| >= 1 && s[|s| - 1] >= 60
      invariant forall i :: 0 <= i < |s| ==> s[i] == Subsidy(i)
      invariant forall i :: 0 <= i < |s| ==> s[i] > 0
      decreases s[|s| - 1]
    {
      var previous := s[|s| - 1];
      var amount := Reduction(previous);
      if amount == 0 {
        TableGrows(s, 0);
        s := s + [0];
        break;
      }
      TableGrows(s, previous - amount);
      s := s + [previous - amount];
    }
  }

  /** Behind the table every subsidy is zero. */
  lemma {:induction false} ZeroForGood(s: seq<nat>, n: nat)
    requires IsTable(s) && n >= |s| - 1
    ensures Subsidy(n) == 0 && SubsidySum(n) == SubsidySum(|s| - 1)
    decreases n
  {
    if n == |s| - 1 {
      assert s[n] == Subsidy(n);
    } else {
      ZeroForGood(s, n - 1);
    }
  }

  method ComputeReductionSupplyMilestones(o: Options, s: seq<nat>) returns (m: seq<int>)
    requires IsTable(s)
    ensures |m| == |s| && IsMilestones(o, m)
  {
    m := [BaseSupply(o)];
    for i := 1 to |s|
      invariant |m| == i && IsMilestones(o, m)
    {
      assert SubsidySum(i) == SubsidySum(i - 1) + s[i - 1];
      m := m + [m[i - 1] + s[i - 1] * EMISSION_REDUCTION_INTERVAL];
    }
  }

  // The lookup.

  function LookupSupply(o: Options, s: seq<nat>, m: seq<int>, h: nat): int
    requires 0 < |s| == |m|
  {
    if h < o.eunosHeight then o.genesisBlockSubsidy + PRE_EUNOS_BLOCK_SUBSIDY * h
    else
      var diff := h - (o.eunosHeight - 1);
      var count := diff / EMISSION_REDUCTION_INTERVAL;
      if count >= |s| then m[|m| - 1] else m[count] + s[count] * (diff % EMISSION_REDUCTION_INTERVAL)
  }

  /** What the first `n` blocks from the Eunos height on pay. */
  function PostEunos(n: nat): nat {
    if n == 0 then 0 else PostEunos(n - 1) + Subsidy((n - 1) / EMISSION_REDUCTION_INTERVAL)
  }

  lemma {:induction false} PostEunosInClosedForm(q: nat, r: nat)
    requires r <= EMISSION_REDUCTION_INTERVAL
    ensures PostEunos(q * EMISSION_REDUCTION_INTERVAL + r)
      == EMISSION_REDUCTION_INTERVAL * SubsidySum(q) + Subsidy(q) * r
    decreases q, r
  {
    if r > 0 {
      PostEunosInClosedForm(q, r - 1);
      assert (q * EMISSION_REDUCTION_INTERVAL + r - 1) / EMISSION_REDUCTION_INTERVAL == q;
      assert Subsidy(q) * r == Subsidy(q) * (r - 1) + Subsidy(q);
    } else if q > 0 {
      PostEunosInClosedForm(q - 1, EMISSION_REDUCTION_INTERVAL);
      assert (q - 1) * EMISSION_REDUCTION_INTERVAL + EMISSION_REDUCTION_INTERVAL == q * EMISSION_REDUCTION_INTERVAL;
    }
  }

  /** Milestone and remainder are the closed form of the sum, past the end of the table too. */
  lemma LookupInClosedForm(o: Options, s: seq<nat>, m: seq<int>, h: nat)
    requires IsTable(s) && |m| == |s| && IsMilestones(o, m) && h >= o.eunosHeight
    ensures LookupSupply(o, s, m, h) == BaseSupply(o) + PostEunos(h - o.eunosHeight + 1)
  {
    var diff := h - (o.eunosHeight - 1);
    var q, r := diff / EMISSION_REDUCTION_INTERVAL, diff % EMISSION_REDUCTION_INTERVAL;
    PostEunosInClosedForm(q, r);
    assert diff == q * EMISSION_REDUCTION_INTERVAL + r;
    if q >= |s| {
      ZeroForGood(s, q);
      assert m[|s| - 1] == BaseSupply(o) + EMISSION_REDUCTION_INTERVAL * SubsidySum(|s| - 1);
    } else {
      assert s[q] * r == Subsidy(q) * r;
    }
  }

  lemma {:induction false} PaidBeforeEunos(o: Options, h: nat)
    requires h < o.eunosHeight
    ensures PaidUpTo(o, h) == o.genesisBlockSubsidy + PRE_EUNOS_BLOCK_SUBSIDY * h
    decreases h
  {
    if h > 0 {
      PaidBeforeEunos(o, h - 1);
    }
  }

  lemma {:induction false} PaidAfterEunos(o: Options, h: nat)
    requires o.eunosHeight <= h
    ensures PaidUpTo(o, h) == o.genesisBlockSubsidy + PostEunos(h - o.eunosHeight + 1)
         + if o.eunosHeight == 0 then -EUNOS_BASE_BLOCK_SUBSIDY else PRE_EUNOS_BLOCK_SUBSIDY * (o.eunosHeight - 1)
    decreases h
  {
    if h > o.eunosHeight {
      PaidAfterEunos(o, h - 1);
    } else {
      assert PostEunos(1) == PostEunos(0) + Subsidy(0);
      if h > 0 {
        PaidBeforeEunos(o, h - 1);
      }
    }
  }

  /** The lookup is the sum of all block subsidies, less the foundation burn from the Eunos height on. The one network
      it fails for is one whose Eunos height is zero, where the lookup counts one block before the first. */
  lemma SupplyIsTheSumIff(o: Options, s: seq<nat>, m: seq<int>, h: nat)
    requires IsTable(s) && |m| == |s| && IsMilestones(o, m)
    ensures LookupSupply(o, s, m, h) == PaidUpTo(o, h) - (if h >= o.eunosHeight then o.eunosFoundationBurn else 0)
       <==> o.eunosHeight >= 1
  {
    if h < o.eunosHeight {
      PaidBeforeEunos(o, h);
    } else {
      LookupInClosedForm(o, s, m, h);
      PaidAfterEunos(o, h);
    }
  }

  lemma FirstSubsidies()
    ensures Subsidy(0) == 40504000000 && Subsidy(1) == 39832443680 && Subsidy(2) == 39172021764
  {
    assert Subsidy(1) == Subsidy(0) - Reduction(Subsidy(0));
  }

  /** What is known of the two networks: the first blocks, and the blocks around the first reductions. */
  lemma KnownSubsidies()
    ensures BlockSubsidyAt(MAIN_NET, 0) == 59100003000000000 && BlockSubsidyAt(TEST_NET, 0) == 30400004000000000
    ensures BlockSubsidyAt(MAIN_NET, 1) == BlockSubsidyAt(MAIN_NET, 893999) == 20000000000
    ensures BlockSubsidyAt(MAIN_NET, 894000) == BlockSubsidyAt(MAIN_NET, 926689) == 40504000000
    ensures BlockSubsidyAt(MAIN_NET, 926690) == BlockSubsidyAt(MAIN_NET, 959379) == 39832443680
    ensures BlockSubsidyAt(MAIN_NET, 959380) == 39172021764
    ensures BlockSubsidyAt(TEST_NET, 1) == BlockSubsidyAt(TEST_NET, 354949) == 20000000000
    ensures BlockSubsidyAt(TEST_NET, 354950) == BlockSubsidyAt(TEST_NET, 387639) == 40504000000
    ensures BlockSubsidyAt(TEST_NET, 387640) == 39832443680
  {
    FirstSubsidies();
  }

  /** The supply of the main net up to `q` whole reductions and `r` blocks, the burn taken off. */
  lemma MainNetSupply(q: nat, r: nat)
    requires r <= EMISSION_REDUCTION_INTERVAL && q * EMISSION_REDUCTION_INTERVAL + r > 0
    ensures PaidUpTo(MAIN_NET, 893999 + q * EMISSION_REDUCTION_INTERVAL + r) - MAIN_NET.eunosFoundationBurn
         == BaseSupply(MAIN_NET) + EMISSION_REDUCTION_INTERVAL * SubsidySum(q) + Subsidy(q) * r
  {
    PaidAfterEunos(MAIN_NET, 893999 + q * EMISSION_REDUCTION_INTERVAL + r);
    PostEunosInClosedForm(q, r);
  }

  /** And what is known of its supply. */
  lemma KnownSupply()
    ensures PaidUpTo(MAIN_NET, 0) == 59100003000000000 && PaidUpTo(MAIN_NET, 100000) == 61100003000000000
    ensures PaidUpTo(MAIN_NET, 893999) == 76979983000000000
    ensures var burn := MAIN_NET.eunosFoundationBurn;
      && PaidUpTo(MAIN_NET, 894000) - burn == 50120734196170954
      && PaidUpTo(MAIN_NET, 926689) - burn == 51444769452170954
      && PaidUpTo(MAIN_NET, 926690) - burn == 51444809284614634
      && PaidUpTo(MAIN_NET, 959379) - burn == 52746892036070154
      && PaidUpTo(MAIN_NET, 959380) - burn == 52746931208091918
  {
    FirstSubsidies();
    assert SubsidySum(0) == 0 && SubsidySum(1) == Subsidy(0) && SubsidySum(2) == Subsidy(0) + Subsidy(1);
    PaidBeforeEunos(MAIN_NET, 100000);
    PaidBeforeEunos(MAIN_NET, 893999);
    MainNetSupply(0, 1);
    MainNetSupply(0, 32690);
    MainNetSupply(1, 1);
    MainNetSupply(1, 32690);
    MainNetSupply(2, 1);
  }

  /** Heights are numbers; only whole ones from zero on are accepted. */
  predicate ValidHeight(height: real) {
    height >= 0.0 && height.Floor as real == height
  }

  class BlockSubsidy {
    const options: Options
    const reductionBlockSubsidies: seq<nat>
    const reductionSupplyMilestones: seq<int>

    ghost predicate Valid() {
      && IsTable(reductionBlockSubsidies) && |reductionSupplyMilestones| == |reductionBlockSubsidies|
      && IsMilestones(options, reductionSupplyMilestones)
    }

    constructor (options: Options)
      ensures Valid() && this.options == options
    {
      this.options := options;
      var s := ComputeBlockReductionSubsidies();
      var m := ComputeReductionSupplyMilestones(options, s);
      reductionBlockSubsidies, reductionSupplyMilestones := s, m;
    }

    method GetSupply(height: real) returns (r: Option<int>)
      requires Valid()
      ensures r.Some? <==> ValidHeight(height)
      ensures r.Some? && options.eunosHeight >= 1 ==>
        r.value == PaidUpTo(options, height.Floor)
          - (if height.Floor >= options.eunosHeight then options.eunosFoundationBurn else 0)
    {
      if !ValidHeight(height) {
        return None;
      }
      var h: nat := height.Floor;
      SupplyIsTheSumIff(options, reductionBlockSubsidies, reductionSupplyMilestones, h);
      r := Some(if h < options.eunosHeight then PreEunosSupply(h) else PostEunosSupply(h));
    }

    function PreEunosSupply(h: nat): (r: int)
      requires Valid() && h < options.eunosHeight
      ensures r == LookupSupply(options, reductionBlockSubsidies, reductionSupplyMilestones, h)
    {
      options.genesisBlockSubsidy + PRE_EUNOS_BLOCK_SUBSIDY * h
    }

    function PostEunosSupply(h: nat): (r: int)
      requires Valid() && h >= options.eunosHeight
      ensures r == LookupSupply(options, reductionBlockSubsidies, reductionSupplyMilestones, h)
    {
      var diff := h - (options.eunosHeight - 1);
      var count := diff / EMISSION_REDUCTION_INTERVAL;
      if count >= |reductionBlockSubsidies| then reductionSupplyMilestones[|reductionSupplyMilestones| - 1]
      else reductionSupplyMilestones[count] + reductionBlockSubsidies[count] * (diff % EMISSION_REDUCTION_INTERVAL)
    }

    method GetBlockSubsidy(height: real) returns (r: Option<int>)
      requires Valid()
      ensures r == if ValidHeight(height) then Some(BlockSubsidyAt(options, height.Floor)) else None
    {
      if !ValidHeight(height) {
        return None;
      }
      var h: nat := height.Floor;
      if h == 0 {
        return Some(options.genesisBlockSubsidy);
      }
      if h < options.eunosHeight {
        return Some(PRE_EUNOS_BLOCK_SUBSIDY);
      }
      var count := (h - options.eunosHeight) / EMISSION_REDUCTION_INTERVAL;
      if count < |reductionBlockSubsidies| {
        return Some(reductionBlockSubsidies[count]);
      }
      ZeroForGood(reductionBlockSubsidies, count);
      r := Some(0);
    }
  }

  // The unrounded version, in DFI.

  const SATOSHI := 100000000.0
  const REDUCTION_AMOUNT := 0.01658
  const CUT_OFF := 0.00001

  function Exact(n: nat): real {
    if n == 0 then 405.04 else Exact(n - 1) - REDUCTION_AMOUNT * Exact(n - 1)
  }

  /** The last of the `n` reductions is too small, and then so would be every later one. */
  predicate CutOff(n: nat) {
    n > 0 && REDUCTION_AMOUNT * Exact(n - 1) <= CUT_OFF
  }

  function UnroundedSubsidy(n: nat): real {
    if CutOff(n) then 0.0 else Exact(n)
  }

  /** The base subsidy below the Eunos height. */
  function UnroundedAt(eunosHeight: int, height: int): real {
    if height < eunosHeight then 405.04 else UnroundedSubsidy((height - eunosHeight) / EMISSION_REDUCTION_INTERVAL)
  }

  lemma {:induction false} StaysCutOff(m: nat, n: nat)
    requires m <= n && CutOff(m)
    ensures CutOff(n)
    decreases n
  {
    if m < n {
      StaysCutOff(m, n - 1);
      ExactIsPositive(n - 2);
    }
  }

  lemma {:induction false} ExactIsPositive(n: nat)
    ensures Exact(n) > 0.0
  {
    if n > 0 {
      ExactIsPositive(n - 1);
    }
  }

  /** Before the Eunos height this version answers the base subsidy, which no block there pays. */
  method GetUnroundedBlockSubsidy(eunosHeight: int, height: int) returns (blockSubsidy: real)
    ensures blockSubsidy == UnroundedAt(eunosHeight, height)
  {
    blockSubsidy := 405.04;
    if height >= eunosHeight {
      var reductions := (height - eunosHeight) / EMISSION_REDUCTION_INTERVAL;
      var i := reductions;
      while i > 0
        invariant 0 <= i <= reductions
        invariant blockSubsidy == Exact(reductions - i) && !CutOff(reductions - i)
      {
        var amount := REDUCTION_AMOUNT * blockSubsidy;
        if amount <= CUT_OFF {
          StaysCutOff(reductions - i + 1, reductions);
          return 0.0;
        }
        blockSubsidy := blockSubsidy - amount;
        i := i - 1;
      }
    }
  }

  function Power(x: real, n: nat): real {
    if n == 0 then 1.0 else x * Power(x, n - 1)
  }

  /** In closed form: what is left after `n` reductions by 1.658 per cent, none of them rounded. */
  lemma {:induction false} ExactInClosedForm(n: nat)
    ensures Exact(n) == 405.04 * Power(0.98342, n)
    decreases n
  {
    if n > 0 {
      ExactInClosedForm(n - 1);
      assert Exact(n) == 0.98342 * Exact(n - 1);
    }
  }

  /** And nothing from the first reduction on that would take off 0.00001 or less. */
  lemma UnroundedInClosedForm(n: nat)
    ensures UnroundedSubsidy(n)
         == if n > 0 && 0.01658 * (405.04 * Power(0.98342, n - 1)) <= 0.00001 then 0.0 else 405.04 * Power(0.98342, n)
  {
    ExactInClosedForm(n);
    if n > 0 {
      ExactInClosedForm(n - 1);
    }
  }

  /** Whole satoshi above the exact amount. */
  function Gap(n: nat): real {
    Subsidy(n) as real - SATOSHI * Exact(n)
  }

  /** Rounding a reduction down keeps less than one satoshi back, and each reduction shrinks what was kept back. */
  lemma OneReduction(n: nat)
    requires Reduction(Subsidy(n)) > 0
    ensures 0.98342 * Gap(n) <= Gap(n + 1) < 0.98342 * Gap(n) + 1.0
  {
    var x := Subsidy(n);
    var amount := Reduction(x);
    assert 100000 * amount <= x * EMISSION_REDUCTION < 100000 * amount + 100000;
    assert 100000.0 * amount as real <= x as real * 1658.0 < 100000.0 * amount as real + 100000.0;
    assert Subsidy(n + 1) == x - amount;
  }

  /** Until the cut-off the rounded subsidy is the exact one or more, by less than 1/0.01658 satoshi. */
  lemma {:induction false} RoundedAgainstExact(n: nat)
    requires !CutOff(n)
    ensures 0.0 <= Gap(n) < 1.0 / REDUCTION_AMOUNT
  {
    if n > 0 {
      if CutOff(n - 1) {
        StaysCutOff(n - 1, n);
      }
      RoundedAgainstExact(n - 1);
      assert Subsidy(n - 1) as real >= SATOSHI * Exact(n - 1) > 60000.0;
      OneReduction(n - 1);
    }
  }

  lemma {:induction false} SubsidyNeverGrows(m: nat, n: nat)
    requires m <= n
    ensures Subsidy(n) <= Subsidy(m)
    decreases n
  {
    if m < n {
      SubsidyNeverGrows(m, n - 1);
    }
  }

  /** Where the reductions were cut off first. */
  lemma {:induction false} FirstCutOff(n: nat) returns (m: nat)
    requires CutOff(n)
    ensures 0 < m <= n && CutOff(m) && !CutOff(m - 1)
  {
    m := n;
    if CutOff(n - 1) {
      m := FirstCutOff(n - 1);
    }
  }

  /** After the cut-off one version pays nothing and the other at most a constant: in all, the rounded version is never
      below the unrounded one and always less than 1001/0.01658 satoshi above it. */
  lemma {:induction false} RoundedAgainstUnrounded(n: nat)
    ensures 0.0 <= Subsidy(n) as real - SATOSHI * UnroundedSubsidy(n) < 1001.0 / REDUCTION_AMOUNT
    ensures !CutOff(n) ==> Subsidy(n) as real - SATOSHI * UnroundedSubsidy(n) < 1.0 / REDUCTION_AMOUNT
  {
    if CutOff(n) {
      var m := FirstCutOff(n);
      RoundedAgainstExact(m - 1);
      SubsidyNeverGrows(m - 1, n);
    } else {
      RoundedAgainstExact(n);
    }
  }

  /** Less than 1001/0.01658 satoshi apart. */
  predicate Near(satoshi: int, dfi: real) {
    -1001.0 / REDUCTION_AMOUNT < satoshi as real - SATOSHI * dfi < 1001.0 / REDUCTION_AMOUNT
  }

  /** The two versions are near each other exactly from the Eunos height on: below it blocks pay 200 DFI and the
      unrounded version answers 405.04 DFI. Block 0 pays what the network's options say, on the two networks far
      more. */
  lemma VersionsAgreeIff(o: Options, h: nat)
    ensures Near(BlockSubsidyAt(o, h), UnroundedAt(o.eunosHeight, h))
       <==> if h == 0 then Near(o.genesisBlockSubsidy, 405.04) else h >= o.eunosHeight
    ensures h == 0 && o in {MAIN_NET, TEST_NET} ==> !Near(BlockSubsidyAt(o, h), UnroundedAt(o.eunosHeight, h))
  {
    if h == 0 {
      assert UnroundedSubsidy(0) == 405.04;
      assert (0 - o.eunosHeight) / EMISSION_REDUCTION_INTERVAL == 0 || o.eunosHeight > 0;
    } else if h >= o.eunosHeight {
      RoundedAgainstUnrounded((h - o.eunosHeight) / EMISSION_REDUCTION_INTERVAL);
    }
  }
}
