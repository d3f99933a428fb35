/** Model-call accounting of one logical segment: a proactive summary, a drive, and
    after an overflow a compaction and a retry, all under one ceiling. */
module SegmentBudget {
  import opened Prelude
  import opened NativeReceipts

  /** What one attempt cost: a summary's or a drive's usage and price, where known. */
  datatype Charge = Charge(usage: Option<Usage>, cost: Option<real>)

  /** What a drive reports. */
  datatype Drive = Drive(calls: nat, charge: Charge, overflow: bool, toolCalls: nat, toolNames: set<string>)

  /** A drive as a function of the calls it may make; without a ceiling, of none. */
  type Driver = Option<nat> -> Drive

  function Run(driver: Driver, allowance: Option<nat>): Drive {
    driver(allowance)
  }

  /** A drive makes no more calls than it is allowed. */
  ghost predicate Obedient(driver: Driver) {
    forall allowance: nat :: Run(driver, Some(allowance)).calls <= allowance
  }

  datatype RunResult = RunResult(iterationsUsed: nat, usage: Option<Usage>, cost: Option<real>, overflow: bool,
    toolCalls: nat, toolNames: set<string>)

  /** What the segment spends a call on. */
  datatype Attempt = Summary(charge: Charge) | Driven(allowance: Option<nat>, drive: Drive)

  /** The attempts of a segment so far, the last one outermost. */
  datatype Attempts = Start | Then(earlier: Attempts, last: Attempt)

  function CallsOf(a: Attempt): nat {
    if a.Summary? then 1 else a.drive.calls
  }

  function ChargeOf(a: Attempt): Charge {
    if a.Summary? then a.charge else a.drive.charge
  }

  datatype Totals = Totals(calls: nat, usage: Option<Usage>, toolCalls: nat, toolNames: set<string>)

  /** What one more attempt adds. */
  function Counted(before: Totals, a: Attempt): Totals {
    Totals(before.calls + CallsOf(a), AddOptional(before.usage, ChargeOf(a).usage),
      before.toolCalls + if a.Driven? then a.drive.toolCalls else 0,
      before.toolNames + if a.Driven? then a.drive.toolNames else {})
  }

  function TotalsOf(attempts: Attempts): Totals {
    match attempts
    case Start => Totals(0, None, 0, {})
    case Then(earlier, last) => Counted(TotalsOf(earlier), last)
  }

  /** Field-wise sum; a field that nobody reported stays absent. */
  function SumUsages(parts: seq<Option<Usage>>): Option<Usage> {
    if parts == [] then None else AddOptional(SumUsages(parts[..|parts| - 1]), parts[|parts| - 1])
  }

  // ---- Adding usage and prices ----

  const FIELDS: seq<Field> := [InputTokens, OutputTokens, CacheCreation, CacheRead, Reasoning]

  function FieldTotal(parts: seq<Usage>, f: Field): nat {
    if parts == [] then 0 else FieldTotal(parts[..|parts| - 1], f) + Get(parts[|parts| - 1], f)
  }

  function Present(parts: seq<Option<Usage>>): seq<Usage> {
    if parts == [] then [] else
    var front, last := Present(parts[..|parts| - 1]), parts[|parts| - 1];
    if last.Some? then front + [last.value] else front
  }

  /** `sumTokenUsage`: field by field over the parts that are there. */
  method SumTokenUsage(parts: seq<Option<Usage>>) returns (total: Option<Usage>)
    ensures total == SumUsages(parts)
  {
    var present := Present(parts);
    PresentSums(parts);
    if present == [] {
      return None;
    }
    var sums: Usage := map[];
    for i := 0 to |FIELDS|
      invariant forall f :: f in sums <==> f in FIELDS[..i] && exists p :: p in present && f in p
      invariant forall f :: f in sums ==> sums[f] == FieldTotal(present, f)
    {
      var field := FIELDS[i];
      assert FIELDS[..i + 1] == FIELDS[..i] + [field];
      var seen, sum := SumField(present, field);
      if seen {
        sums := sums[field := sum];
      }
    }
    AllFields();
    assert FIELDS[..|FIELDS|] == FIELDS;
    assert sums == SumUsages(parts).value;
    return Some(sums);
  }

  method SumField(present: seq<Usage>, field: Field) returns (seen: bool, sum: nat)
    ensures seen <==> exists p :: p in present && field in p
    ensures sum == FieldTotal(present, field)
  {
    seen, sum := false, 0;
    for k := 0 to |present|
      invariant seen <==> exists p :: p in present[..k] && field in p
      invariant sum == FieldTotal(present[..k], field)
    {
      assert present[..k + 1] == present[..k] + [present[k]];
      if field in present[k] {
        seen, sum := true, sum + present[k][field];
      }
    }
    assert present[..|present|] == present;
  }

  lemma AllFields()
    ensures forall f: Field :: f in FIELDS
  {
    forall f: Field
      ensures f in FIELDS
    {
      match f
      case InputTokens => assert FIELDS[0] == f;
      case OutputTokens => assert FIELDS[1] == f;
      case CacheCreation => assert FIELDS[2] == f;
      case CacheRead => assert FIELDS[3] == f;
      case Reasoning => assert FIELDS[4] == f;
    }
  }

  lemma {:induction false} PresentSums(parts: seq<Option<Usage>>)
    ensures SumUsages(parts).None? <==> Present(parts) == []
    ensures SumUsages(parts).Some? ==>
      forall f :: (f in SumUsages(parts).value <==> exists p :: p in Present(parts) && f in p)
        && Get(SumUsages(parts).value, f) == FieldTotal(Present(parts), f)
  {
    if parts != [] {
      PresentSums(parts[..|parts| - 1]);
      var front, last := Present(parts[..|parts| - 1]), parts[|parts| - 1];
      if last.Some? {
        assert (front + [last.value])[..|front|] == front;
        assert forall p :: p in front + [last.value] <==> p in front || p == last.value;
        assert front == [] ==> forall f :: FieldTotal(front, f) == 0;
      }
    }
  }

  /** What is known of a price: nothing to price, a sum, or something unpriced. */
  datatype Price = Nothing | Total(amount: real) | Unpriced

  function PriceOf(c: Charge): Price {
    if c.cost.Some? then Total(c.cost.value) else if c.usage.Some? then Unpriced else Nothing
  }

  function CombinePrice(a: Price, b: Price): Price {
    if a.Unpriced? || b.Unpriced? then Unpriced
    else if a.Nothing? then b else if b.Nothing? then a else Total(a.amount + b.amount)
  }

  function Prices(parts: seq<Charge>): Price {
    if parts == [] then Nothing else CombinePrice(Prices(parts[..|parts| - 1]), PriceOf(parts[|parts| - 1]))
  }

  function AmountOf(p: Price): Option<real> {
    if p.Total? then Some(p.amount) else None
  }

  /** It used tokens, and nobody knows their price. */
  predicate IsUnpriced(c: Charge) {
    c.usage.Some? && c.cost.None?
  }

  function KnownCosts(parts: seq<Charge>): real {
    if parts == [] then 0.0 else
    KnownCosts(parts[..|parts| - 1])
    + if parts[|parts| - 1].cost.Some? then parts[|parts| - 1].cost.value else 0.0
  }

  /** A price is unknown as soon as one part is unpriced, there is nothing to price when
      no part has tokens or a price, and otherwise it is the sum of the known prices. */
  lemma {:induction false} PricesMean(parts: seq<Charge>)
    ensures Prices(parts).Unpriced? <==> exists p :: p in parts && IsUnpriced(p)
    ensures Prices(parts).Nothing? <==> forall p :: p in parts ==> p.usage.None? && p.cost.None?
    ensures Prices(parts).Total? ==> Prices(parts).amount == KnownCosts(parts)
    ensures Prices(parts).Nothing? ==> KnownCosts(parts) == 0.0
  {
    if parts != [] {
      var front, last := parts[..|parts| - 1], parts[|parts| - 1];
      PricesMean(front);
      assert parts == front + [last];
      assert last in parts && forall p :: p in front ==> p in parts;
      assert forall p :: p in parts ==> p in front || p == last;
    }
  }

  lemma KnownIff(parts: seq<Charge>)
    ensures AmountOf(Prices(parts)).Some? <==>
      (exists p :: p in parts && p.cost.Some?) && forall p :: p in parts ==> !IsUnpriced(p)
    ensures AmountOf(Prices(parts)).Some? ==> AmountOf(Prices(parts)).value == KnownCosts(parts)
  {
    PricesMean(parts);
    if !Prices(parts).Unpriced? && !Prices(parts).Nothing? {
      var p :| p in parts && (p.usage.Some? || p.cost.Some?);
      assert !IsUnpriced(p);
    }
  }

  /** `pricedTotal`: known exactly when something is priced and nothing that used tokens
      is unpriced, and then the sum of the known prices. */
  method PricedTotal(parts: seq<Charge>) returns (total: Option<real>)
    ensures total == AmountOf(Prices(parts))
    ensures total.Some? <==> (exists p :: p in parts && p.cost.Some?) && forall p :: p in parts ==> !IsUnpriced(p)
    ensures total.Some? ==> total.value == KnownCosts(parts)
  {
    KnownIff(parts);
    var sum, seen := 0.0, false;
    for i := 0 to |parts|
      invariant Prices(parts[..i]) == if seen then Total(sum) else Nothing
      invariant !seen ==> sum == 0.0
    {
      assert parts[..i + 1][..i] == parts[..i];
      if parts[i].cost.Some? {
        seen, sum := true, sum + parts[i].cost.value;
      } else if parts[i].usage.Some? {
        UnpricedForGood(parts, i + 1);
        return None;
      }
    }
    assert parts[..|parts|] == parts;
    return if seen then Some(sum) else None;
  }

  lemma {:induction false} UnpricedForGood(parts: seq<Charge>, n: nat)
    requires n <= |parts| && Prices(parts[..n]) == Unpriced
    ensures Prices(parts) == Unpriced
    decreases |parts| - n
  {
    if n < |parts| {
      assert parts[..n + 1][..n] == parts[..n];
      UnpricedForGood(parts, n + 1);
    } else {
      assert parts[..n] == parts;
    }
  }

  // ---- Building the result ----

  function Reported(d: Drive): RunResult {
    RunResult(d.calls, d.charge.usage, d.charge.cost, d.overflow, d.toolCalls, d.toolNames)
  }

  function AttemptCharge(r: RunResult): Charge {
    Charge(r.usage, r.cost)
  }

  function OrElse<T>(a: Option<T>, b: Option<T>): Option<T> {
    if a.Some? then a else b
  }

  /** The spread keeps the drive's own usage and price where the totals are undefined. */
  function ChargeLeadingSummary(r: RunResult, summary: Charge): RunResult {
    r.(iterationsUsed := r.iterationsUsed + 1,
      usage := OrElse(SumUsages([r.usage, summary.usage]), r.usage),
      cost := OrElse(AmountOf(Prices([AttemptCharge(r), summary])), r.cost))
  }

  function ChargeRecoveredAttempt(abandoned: RunResult, compaction: Charge): RunResult {
    abandoned.(iterationsUsed := abandoned.iterationsUsed + 1,
      usage := SumUsages([abandoned.usage, compaction.usage]),
      cost := AmountOf(Prices([AttemptCharge(abandoned), compaction])))
  }

  function MergeRecoveredAttempts(abandoned: RunResult, retry: RunResult, compaction: Charge): RunResult {
    retry.(iterationsUsed := abandoned.iterationsUsed + 1 + retry.iterationsUsed,
      usage := SumUsages([abandoned.usage, compaction.usage, retry.usage]),
      cost := AmountOf(Prices([AttemptCharge(abandoned), compaction, AttemptCharge(retry)])),
      toolCalls := abandoned.toolCalls + retry.toolCalls,
      toolNames := abandoned.toolNames + retry.toolNames)
  }

  // ---- The segment ----

  function Less(remaining: Option<nat>, spent: nat): Option<nat> {
    if remaining.None? then None else Some(if remaining.value < spent then 0 else remaining.value - spent)
  }

  predicate Spent(remaining: Option<nat>) {
    remaining == Some(0)
  }

  function Leading(summary: Option<Charge>): Attempts {
    if summary.Some? then Then(Start, Summary(summary.value)) else Start
  }

  function LeadingCalls(summary: Option<Charge>): nat {
    if summary.Some? then 1 else 0
  }

  /** What follows an overflow once `spent` calls are used. */
  function Recovery(attempts: Attempts, remaining: Option<nat>, spent: nat, compaction: Charge, retry: Driver): Attempts
  {
    var leftover := Less(remaining, spent + 1);
    var compacted := Then(attempts, Summary(compaction));
    if Spent(leftover) then compacted else Then(compacted, Driven(leftover, Run(retry, leftover)))
  }

  /** What follows a drive that leaves `spent` calls used. */
  function Further(attempts: Attempts, remaining: Option<nat>, spent: nat, overflow: bool, canReduce: bool,
      compaction: Option<Charge>, retry: Driver): Attempts
  {
    if overflow && canReduce && compaction.Some? && !Spent(Less(remaining, spent))
    then Recovery(attempts, remaining, spent, compaction.value, retry)
    else attempts
  }

  /** The attempts that a segment makes. */
  function SegmentAttempts(remaining: Option<nat>, summary: Option<Charge>, first: Driver, canReduce: bool,
      compaction: Option<Charge>, retry: Driver): Attempts
  {
    var allowance := Less(remaining, LeadingCalls(summary));
    if Spent(allowance) then Leading(summary) else
    var drive := Run(first, allowance);
    Further(Then(Leading(summary), Driven(allowance, drive)), remaining, LeadingCalls(summary) + drive.calls,
      drive.overflow, canReduce, compaction, retry)
  }

  function ListOf(attempts: Attempts): seq<Attempt> {
    match attempts
    case Start => []
    case Then(earlier, last) => ListOf(earlier) + [last]
  }

  lemma ListMore(attempts: Attempts, a: Attempt)
    ensures ListOf(Then(attempts, a)) == ListOf(attempts) + [a]
  {}

  /** The limit leaves a call once `spent` are used. */
  predicate Left(remaining: Option<nat>, spent: nat) {
    remaining.Some? ==> spent < remaining.value
  }

  /** The attempts one by one: the summary that came first; the drive, if a call is left;
      behind an overflow that something can be done about, with a call left, the compaction;
      and behind it the retry, with a further call left, on what remains. */
  lemma SegmentList(remaining: Option<nat>, summary: Option<Charge>, first: Driver, canReduce: bool,
      compaction: Option<Charge>, retry: Driver)
    requires remaining != Some(0)
    ensures var opening := if summary.Some? then 1 else 0;
      var allowance := if remaining.Some? then Some(remaining.value - opening) else None;
      var drive := Run(first, allowance);
      var spent := opening + drive.calls;
      var recovers := drive.overflow && canReduce && compaction.Some? && Left(remaining, spent);
      var rest := if remaining.Some? && Left(remaining, spent + 1) then Some(remaining.value - spent - 1) else None;
      ListOf(SegmentAttempts(remaining, summary, first, canReduce, compaction, retry)) ==
        (if summary.Some? then [Summary(summary.value)] else [])
        + (if Left(remaining, opening) then [Driven(allowance, drive)] else [])
        + (if Left(remaining, opening) && recovers then [Summary(compaction.value)] else [])
        + (if Left(remaining, opening) && recovers && Left(remaining, spent + 1) then [Driven(rest, Run(retry, rest))]
           else [])
  {
    var before := Leading(summary);
    var allowance := Less(remaining, LeadingCalls(summary));
    if summary.Some? {
      ListMore(Start, Summary(summary.value));
    }
    if !Spent(allowance) {
      var drive := Run(first, allowance);
      var driven := Then(before, Driven(allowance, drive));
      ListMore(before, Driven(allowance, drive));
      var left := Less(remaining, LeadingCalls(summary) + drive.calls);
      if drive.overflow && canReduce && compaction.Some? && !Spent(left) {
        var compacted := Then(driven, Summary(compaction.value));
        var rest := Less(remaining, LeadingCalls(summary) + drive.calls + 1);
        ListMore(driven, Summary(compaction.value));
        ListMore(compacted, Driven(rest, Run(retry, rest)));
      }
    }
  }

  /** How the last drive of the attempts ended. */
  predicate Overflows(attempts: Attempts) {
    match attempts
    case Start => false
    case Then(earlier, Driven(_, d)) => d.overflow
    case Then(earlier, Summary(_)) => Overflows(earlier)
  }

  /** An overflow is one with no drive behind it. */
  lemma {:induction false} OverflowsIff(attempts: Attempts)
    ensures Overflows(attempts) <==>
      exists i :: 0 <= i < |ListOf(attempts)| && ListOf(attempts)[i].Driven? && ListOf(attempts)[i].drive.overflow
        && forall j :: i < j < |ListOf(attempts)| ==> !ListOf(attempts)[j].Driven?
  {
    match attempts
    case Start =>
    case Then(earlier, last) =>
      OverflowsIff(earlier);
      var n := |ListOf(earlier)|;
      assert ListOf(attempts)[n] == last && ListOf(attempts)[..n] == ListOf(earlier);
      assert forall i :: 0 <= i < n ==> ListOf(attempts)[i] == ListOf(earlier)[i];
  }

  lemma BehindLeading(remaining: Option<nat>, summary: Option<Charge>, left: Option<nat>, first: Driver,
      canReduce: bool, compaction: Option<Charge>, retry: Driver)
    requires left == Less(remaining, LeadingCalls(summary)) && !Spent(left)
    ensures var d := Run(first, left);
      SegmentAttempts(remaining, summary, first, canReduce, compaction, retry)
      == Further(Then(Leading(summary), Driven(left, d)), remaining, LeadingCalls(summary) + d.calls, d.overflow,
           canReduce, compaction, retry)
  {}

  class ModelCallBudget {
    const limit: Option<nat>
    var used: nat

    constructor (limit: Option<nat>)
      ensures this.limit == limit && used == 0
    {
      this.limit, used := limit, 0;
    }
  }

  /** A drive runs only on a positive allowance, and counts its own calls. */
  method RunOnce(budget: ModelCallBudget, allowance: Option<nat>, driver: Driver) returns (r: RunResult)
    requires !Spent(allowance)
    modifies budget
    ensures r == Reported(Run(driver, allowance)) && budget.used == old(budget.used) + Run(driver, allowance).calls
  {
    var d := Run(driver, allowance);
    budget.used := budget.used + d.calls;
    return Reported(d);
  }

  /** The result counts the calls, tokens and tool calls of exactly these attempts. */
  ghost predicate Tallies(r: RunResult, attempts: Attempts) {
    Totals(r.iterationsUsed, r.usage, r.toolCalls, r.toolNames) == TotalsOf(attempts)
  }

  /** An unpriced leading summary in front of a priced drive. */
  predicate DropsSummary(summary: Option<Charge>, d: Drive) {
    summary.Some? && IsUnpriced(summary.value) && d.charge.cost.Some?
  }

  /** The price that a segment books: such a summary is left out of it. */
  function Booked(attempts: Attempts): Price {
    match attempts
    case Start => Nothing
    case Then(Then(Start, Summary(c)), Driven(_, d)) =>
      if DropsSummary(Some(c), d) then PriceOf(d.charge) else CombinePrice(PriceOf(c), PriceOf(d.charge))
    case Then(earlier, last) => CombinePrice(Booked(earlier), PriceOf(ChargeOf(last)))
  }

  /** The result has the price at which the attempts are booked. */
  ghost predicate PricedAs(r: RunResult, attempts: Attempts) {
    PriceOf(AttemptCharge(r)) == Booked(attempts)
  }

  /** At least one drive, behind at most one summary. */
  predicate HasDriven(attempts: Attempts) {
    match attempts
    case Start => false
    case Then(Start, last) => last.Driven?
    case _ => true
  }

  /** Every drive may make a call. */
  predicate AllAllowed(attempts: Attempts) {
    match attempts
    case Start => true
    case Then(earlier, last) =>
      AllAllowed(earlier) && (last.Driven? && last.allowance.Some? ==> last.allowance.value > 0)
  }

  /** No drive of a segment starts without a call to make. */
  lemma NoEmptyDrive(remaining: Option<nat>, summary: Option<Charge>, first: Driver, canReduce: bool,
      compaction: Option<Charge>, retry: Driver)
    ensures AllAllowed(SegmentAttempts(remaining, summary, first, canReduce, compaction, retry))
  {
    assert AllAllowed(Leading(summary));
  }

  /** One segment: what it reports and what it adds to the budget are the totals of
      its attempts, never more than the calls that remained, and no drive starts without
      a call to make. */
  method RunSegment(budget: ModelCallBudget, remaining: Option<nat>, summary: Option<Charge>, first: Driver,
      canReduce: bool, compaction: Option<Charge>, retry: Driver) returns (r: RunResult)
    requires !Spent(remaining) && budget.limit == if remaining.Some? then Some(budget.used + remaining.value) else None
    requires Obedient(first) && Obedient(retry)
    modifies budget
    ensures var attempts := SegmentAttempts(remaining, summary, first, canReduce, compaction, retry);
      Tallies(r, attempts) && PricedAs(r, attempts) && AllAllowed(attempts) && r.overflow == Overflows(attempts)
    ensures budget.used == old(budget.used) + r.iterationsUsed
    ensures remaining.Some? ==> r.iterationsUsed <= remaining.value
  {
    NoEmptyDrive(remaining, summary, first, canReduce, compaction, retry);
    var left := remaining;
    if summary.Some? {
      budget.used := budget.used + 1;
      left := Less(remaining, 1);
    }
    if Spent(left) {
      SummaryAlone(summary.value);
      return RunResult(1, summary.value.usage, summary.value.cost, false, 0, {});
    }
    r := LeadingDrive(budget, left, summary, first);
    ghost var attempts := Then(Leading(summary), Driven(left, Run(first, left)));
    BehindLeading(remaining, summary, left, first, canReduce, compaction, retry);
    r := AfterDrive(budget, remaining, r, attempts, canReduce, compaction, retry);
  }

  /** The drive behind the leading summary, whose own call is already counted. */
  method LeadingDrive(budget: ModelCallBudget, left: Option<nat>, summary: Option<Charge>, first: Driver)
      returns (r: RunResult)
    requires !Spent(left)
    modifies budget
    ensures var attempts := Then(Leading(summary), Driven(left, Run(first, left)));
      Tallies(r, attempts) && PricedAs(r, attempts) && HasDriven(attempts)
    ensures r.iterationsUsed == LeadingCalls(summary) + Run(first, left).calls
    ensures r.overflow == Run(first, left).overflow
    ensures budget.used == old(budget.used) + Run(first, left).calls
  {
    r := RunOnce(budget, left, first);
    LeadingTallies(summary, left, Run(first, left));
    if summary.Some? {
      r := ChargeLeadingSummary(r, summary.value);
    }
  }

  /** What a drive leaves to do: nothing, or the recovery from its overflow. */
  method AfterDrive(budget: ModelCallBudget, remaining: Option<nat>, drive: RunResult, ghost attempts: Attempts,
      canReduce: bool, compaction: Option<Charge>, retry: Driver) returns (r: RunResult)
    requires Tallies(drive, attempts) && PricedAs(drive, attempts) && HasDriven(attempts) && Obedient(retry)
    requires drive.overflow == Overflows(attempts)
    requires remaining.Some? ==> drive.iterationsUsed <= remaining.value
    requires budget.limit
      == if remaining.Some? then Some(budget.used - drive.iterationsUsed + remaining.value) else None
    modifies budget
    ensures var all := Further(attempts, remaining, drive.iterationsUsed, drive.overflow, canReduce, compaction, retry);
      Tallies(r, all) && PricedAs(r, all) && r.overflow == Overflows(all)
    ensures budget.used == old(budget.used) + r.iterationsUsed - drive.iterationsUsed
    ensures remaining.Some? ==> r.iterationsUsed <= remaining.value
  {
    if drive.overflow && canReduce && compaction.Some? && (budget.limit.None? || budget.used < budget.limit.value) {
      r := Recover(budget, remaining, drive, attempts, compaction.value, retry);
    } else {
      r := drive;
    }
  }

  /** After an overflow: the compaction, and a retry if a call is left for it. */
  method Recover(budget: ModelCallBudget, remaining: Option<nat>, abandoned: RunResult, ghost attempts: Attempts,
      compaction: Charge, retry: Driver) returns (r: RunResult)
    requires Tallies(abandoned, attempts) && PricedAs(abandoned, attempts) && HasDriven(attempts)
    requires Obedient(retry) && (remaining.Some? ==> abandoned.iterationsUsed < remaining.value)
    requires abandoned.overflow == Overflows(attempts)
    modifies budget
    ensures var all := Recovery(attempts, remaining, abandoned.iterationsUsed, compaction, retry);
      Tallies(r, all) && PricedAs(r, all) && r.overflow == Overflows(all)
    ensures budget.used == old(budget.used) + r.iterationsUsed - abandoned.iterationsUsed
    ensures remaining.Some? ==> r.iterationsUsed <= remaining.value
  {
    budget.used := budget.used + 1;
    RecoveredTallies(abandoned, attempts, compaction);
    var leftover := Less(remaining, abandoned.iterationsUsed + 1);
    if Spent(leftover) {
      r := ChargeRecoveredAttempt(abandoned, compaction);
    } else {
      var again := RunOnce(budget, leftover, retry);
      MergedTallies(abandoned, attempts, compaction, leftover, Run(retry, leftover));
      r := MergeRecoveredAttempts(abandoned, again, compaction);
    }
  }

  lemma SummaryAlone(summary: Charge)
    ensures var r := RunResult(1, summary.usage, summary.cost, false, 0, {});
      Tallies(r, Then(Start, Summary(summary))) && PricedAs(r, Then(Start, Summary(summary)))
  {}

  lemma LeadingTallies(summary: Option<Charge>, allowance: Option<nat>, d: Drive)
    ensures var r := if summary.Some? then ChargeLeadingSummary(Reported(d), summary.value) else Reported(d);
      var attempts := Then(Leading(summary), Driven(allowance, d));
      && Tallies(r, attempts) && PricedAs(r, attempts) && HasDriven(attempts)
      && r.iterationsUsed == LeadingCalls(summary) + d.calls
  {
    if summary.Some? {
      TwoUsages(d.charge.usage, summary.value.usage);
      LeadingSummaryPrice(Reported(d), summary.value);
      assert TotalsOf(Leading(summary)) == Totals(1, summary.value.usage, 0, {});
    } else {
      assert TotalsOf(Leading(summary)) == Totals(0, None, 0, {});
    }
  }

  lemma RecoveredTallies(r: RunResult, attempts: Attempts, compaction: Charge)
    requires Tallies(r, attempts) && PricedAs(r, attempts) && HasDriven(attempts)
    ensures var more := Then(attempts, Summary(compaction));
      Tallies(ChargeRecoveredAttempt(r, compaction), more) && PricedAs(ChargeRecoveredAttempt(r, compaction), more)
  {
    TwoUsages(r.usage, compaction.usage);
    RecoveryPrice(r, compaction, r);
  }

  lemma MergedTallies(r: RunResult, attempts: Attempts, compaction: Charge, allowance: Option<nat>, d: Drive)
    requires Tallies(r, attempts) && PricedAs(r, attempts) && HasDriven(attempts)
    ensures var more := Then(Then(attempts, Summary(compaction)), Driven(allowance, d));
      var merged := MergeRecoveredAttempts(r, Reported(d), compaction);
      Tallies(merged, more) && PricedAs(merged, more)
  {
    ThreeUsages(r.usage, compaction.usage, d.charge.usage);
    RecoveryPrice(r, compaction, Reported(d));
    assert TotalsOf(Then(attempts, Summary(compaction))) == Counted(TotalsOf(attempts), Summary(compaction));
  }

  /** Field-wise sums do not depend on the order of two parts. */
  lemma TwoUsages(a: Option<Usage>, b: Option<Usage>)
    ensures SumUsages([a, b]) == AddOptional(a, b) == AddOptional(b, a)
  {
    assert [a, b][..1] == [a] && [a][..0] == [];
    assert SumUsages([a, b][..1]) == a;
    if a.Some? && b.Some? {
      assert Add(a.value, b.value) == Add(b.value, a.value);
    }
  }

  lemma ThreeUsages(a: Option<Usage>, b: Option<Usage>, c: Option<Usage>)
    ensures SumUsages([a, b, c]) == AddOptional(AddOptional(a, b), c)
  {
    assert [a, b, c][..2] == [a, b];
    TwoUsages(a, b);
  }

  // ---- What becomes of the price ----

  lemma TwoPrices(a: Charge, b: Charge)
    ensures Prices([a, b]) == CombinePrice(PriceOf(a), PriceOf(b))
  {
    assert [a, b][..1] == [a] && [a][..0] == [];
    assert Prices([a, b][..1]) == PriceOf(a);
  }

  lemma ThreePrices(a: Charge, b: Charge, c: Charge)
    ensures Prices([a, b, c]) == CombinePrice(CombinePrice(PriceOf(a), PriceOf(b)), PriceOf(c))
  {
    assert [a, b, c][..2] == [a, b];
    TwoPrices(a, b);
  }

  /** After a recovery the result is priced as all its attempts together: a price only
      if every part that used tokens has one. */
  lemma RecoveryPrice(r: RunResult, compaction: Charge, retry: RunResult)
    ensures PriceOf(AttemptCharge(ChargeRecoveredAttempt(r, compaction)))
      == CombinePrice(PriceOf(AttemptCharge(r)), PriceOf(compaction))
    ensures PriceOf(AttemptCharge(MergeRecoveredAttempts(r, retry, compaction)))
      == CombinePrice(CombinePrice(PriceOf(AttemptCharge(r)), PriceOf(compaction)), PriceOf(AttemptCharge(retry)))
  {
    TwoPrices(AttemptCharge(r), compaction);
    TwoUsages(r.usage, compaction.usage);
    ThreePrices(AttemptCharge(r), compaction, AttemptCharge(retry));
    ThreeUsages(r.usage, compaction.usage, retry.usage);
  }

  /** A leading summary is priced in the same way exactly unless it is itself unpriced
      and the drive is priced: then the drive's price stays, as if the summary were free. */
  lemma LeadingSummaryPrice(r: RunResult, summary: Charge)
    ensures PriceOf(AttemptCharge(ChargeLeadingSummary(r, summary)))
        == CombinePrice(PriceOf(summary), PriceOf(AttemptCharge(r)))
      <==> !(IsUnpriced(summary) && r.cost.Some?)
    ensures IsUnpriced(summary) && r.cost.Some? ==>
      PriceOf(AttemptCharge(ChargeLeadingSummary(r, summary))) == PriceOf(AttemptCharge(r))
  {
    TwoPrices(AttemptCharge(r), summary);
    TwoUsages(r.usage, summary.usage);
  }

  function ChargesOf(attempts: Attempts): seq<Charge> {
    match attempts
    case Start => []
    case Then(earlier, last) => ChargesOf(earlier) + [ChargeOf(last)]
  }

  lemma ChargesMore(attempts: Attempts, a: Attempt)
    ensures Prices(ChargesOf(Then(attempts, a))) == CombinePrice(Prices(ChargesOf(attempts)), PriceOf(ChargeOf(a)))
    ensures KnownCosts(ChargesOf(Then(attempts, a)))
      == KnownCosts(ChargesOf(attempts)) + if ChargeOf(a).cost.Some? then ChargeOf(a).cost.value else 0.0
  {
    var charges := ChargesOf(attempts);
    assert (charges + [ChargeOf(a)])[..|charges|] == charges;
  }

  /** The segment starts with an unpriced summary in front of a priced drive, and nothing
      behind them is unpriced. */
  predicate HidesSummary(attempts: Attempts) {
    match attempts
    case Then(Then(Start, Summary(c)), Driven(_, d)) => DropsSummary(Some(c), d)
    case Then(earlier, last) => HidesSummary(earlier) && !IsUnpriced(ChargeOf(last))
    case Start => false
  }

  lemma BookedFirst(c: Charge, allowance: Option<nat>, d: Drive)
    ensures var attempts := Then(Then(Start, Summary(c)), Driven(allowance, d));
      if DropsSummary(Some(c), d)
      then Booked(attempts) == Total(KnownCosts(ChargesOf(attempts))) && Prices(ChargesOf(attempts)).Unpriced?
      else Booked(attempts) == Prices(ChargesOf(attempts))
  {
    ChargesMore(Start, Summary(c));
    ChargesMore(Then(Start, Summary(c)), Driven(allowance, d));
  }

  /** Booked and true price differ only then: the known prices are summed although the
      total is unknown. */
  lemma {:induction false} BookedIff(attempts: Attempts)
    ensures HidesSummary(attempts) ==>
      Booked(attempts) == Total(KnownCosts(ChargesOf(attempts))) && Prices(ChargesOf(attempts)).Unpriced?
    ensures !HidesSummary(attempts) ==> Booked(attempts) == Prices(ChargesOf(attempts))
    decreases attempts
  {
    match attempts
    case Start =>
    case Then(earlier, last) =>
      ChargesMore(earlier, last);
      if earlier.Then? && earlier.earlier.Start? && earlier.last.Summary? && last.Driven? {
        BookedFirst(earlier.last.charge, last.allowance, last.drive);
      } else {
        BookedIff(earlier);
      }
  }

  /** The price that a result reports is that of all its attempts together exactly unless
      it hides an unpriced summary in front. */
  lemma SegmentPriceIff(r: RunResult, attempts: Attempts)
    requires PricedAs(r, attempts)
    ensures r.cost == AmountOf(Prices(ChargesOf(attempts))) <==> !HidesSummary(attempts)
    ensures HidesSummary(attempts) ==> r.cost == Some(KnownCosts(ChargesOf(attempts)))
  {
    BookedIff(attempts);
  }

  /** It happens: a summary that used a token and has no price, before a priced drive. */
  lemma SummaryHidden(d: Drive)
    requires d.charge.cost == Some(1.0)
    ensures var summary := Charge(Some(map[InputTokens := 1]), None);
      ChargeLeadingSummary(Reported(d), summary).cost == Some(1.0) && AmountOf(Prices([d.charge, summary])) == None
  {
    TwoPrices(d.charge, Charge(Some(map[InputTokens := 1]), None));
  }
}
