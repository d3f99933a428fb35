/** Receipt folding of the native host: a bounded list of receipts whose aggregate
    is that of every receipt ever appended. */
module NativeReceipts {
  import opened Prelude

  const MAX_RECEIPTS: nat := 64
  const FOLDED: nat := 32

  // ---- Token usage ----

  datatype Field = InputTokens | OutputTokens | CacheCreation | CacheRead | Reasoning

  /** A field that nobody reported is absent. */
  type Usage = map<Field, nat>

  function Get(u: Usage, f: Field): nat {
    if f in u then u[f] else 0
  }

  function Add(a: Usage, b: Usage): Usage {
    map f | f in a.Keys + b.Keys :: Get(a, f) + Get(b, f)
  }

  datatype Accumulator = Accumulator(totals: Usage, call: Usage, sawUsage: bool)

  const FRESH := Accumulator(map[], map[], false)

  /** A usage_delta keeps the last value seen per field of the current call. */
  function UsageDelta(acc: Accumulator, u: Usage): Accumulator {
    Accumulator(acc.totals, acc.call + u, true)
  }

  /** A message_stop flushes the call into the totals. */
  function FlushCall(acc: Accumulator): Accumulator {
    Accumulator(Add(acc.totals, acc.call), map[], acc.sawUsage)
  }

  function FinalizeUsage(acc: Accumulator): Option<Usage> {
    if acc.sawUsage then Some(FlushCall(acc).totals) else None
  }

  // ---- Receipts ----

  datatype CostState = Paid | Free | Subscription | UnknownCost

  /** Which call an estimate was priced for. */
  datatype Origin = Origin(provider: string, model: string, pricedAt: string)

  datatype Cost = Cost(state: CostState, complete: bool, amount: Option<real>, origin: Origin)

  datatype Receipt = Receipt(usage: Option<Usage>, cost: Option<Cost>)

  /** The aggregate without its component list. */
  datatype Metrics = Metrics(usage: Option<Usage>, cost: Option<Cost>)

  // ---- What a list of receipts amounts to ----

  /** `complete`: every receipt is priced in full. `subscription`: every estimate that
      there is is a subscription's. `first`: the first estimate's origin. */
  datatype Digest = Digest(usage: Option<Usage>, any: bool, complete: bool, amount: real, subscription: bool,
    first: Option<Origin>)

  const NOTHING := Digest(None, false, true, 0.0, true, None)

  function AddOptional(a: Option<Usage>, b: Option<Usage>): Option<Usage> {
    if a.None? then b else if b.None? then a else Some(Add(a.value, b.value))
  }

  function Combine(a: Digest, b: Digest): Digest {
    Digest(AddOptional(a.usage, b.usage), a.any || b.any, a.complete && b.complete,
      if a.complete && b.complete then a.amount + b.amount else 0.0,
      a.subscription && b.subscription, if a.first.Some? then a.first else b.first)
  }

  predicate Priced(r: Receipt) {
    r.cost.Some? && r.cost.value.complete && r.cost.value.amount.Some?
  }

  function One(r: Receipt): Digest {
    Digest(r.usage, true, Priced(r), if Priced(r) then r.cost.value.amount.value else 0.0,
      r.cost.None? || r.cost.value.state == Subscription, if r.cost.None? then None else Some(r.cost.value.origin))
  }

  function Amounts(receipts: seq<Receipt>): Digest {
    if receipts == [] then NOTHING else Combine(Amounts(receipts[..|receipts| - 1]), One(receipts[|receipts| - 1]))
  }

  /** The aggregate that a digest stands for. */
  function Summarize(d: Digest): Metrics {
    if !d.any then Metrics(None, None)
    else if d.first.None? then Metrics(d.usage, None)
    else
      var state := if d.subscription then Subscription else if !d.complete then UnknownCost
        else if d.amount == 0.0 then Free else Paid;
      Metrics(d.usage, Some(Cost(state, d.complete, if d.complete then Some(d.amount) else None, d.first.value)))
  }

  method Gather(receipts: seq<Receipt>) returns (usage: Option<Usage>, components: seq<Cost>)
    ensures usage == Amounts(receipts).usage && components == ComponentsOf(receipts)
  {
    var acc := FRESH;
    components := [];
    for i := 0 to |receipts|
      invariant acc.call == map[] && (!acc.sawUsage ==> acc.totals == map[])
      invariant FinalizeUsage(acc) == Amounts(receipts[..i]).usage
      invariant components == ComponentsOf(receipts[..i])
    {
      assert receipts[..i + 1][..i] == receipts[..i];
      if receipts[i].usage.Some? {
        CallCounts(acc, receipts[i].usage.value);
        acc := UsageDelta(acc, receipts[i].usage.value);
        acc := FlushCall(acc);
      }
      if receipts[i].cost.Some? {
        components := components + [receipts[i].cost.value];
      }
    }
    assert receipts[..|receipts|] == receipts;
    usage := FinalizeUsage(acc);
  }

  /** `nativeTurnMetrics`: one loop for usage and components, then the expressions
      over the components. */
  method NativeTurnMetrics(receipts: seq<Receipt>) returns (m: Metrics)
    ensures m == Summarize(Amounts(receipts))
  {
    if |receipts| == 0 {
      return Metrics(None, None);
    }
    var usage, components := Gather(receipts);
    ComponentsTell(receipts);
    if components == [] {
      return Metrics(usage, None);
    }
    var complete := |components| == |receipts| && forall part :: part in components ==>
      part.complete && part.amount.Some?;
    var amount := Reduce(components);
    var state := if forall part :: part in components ==> part.state == Subscription then Subscription
      else if !complete then UnknownCost else if amount == 0.0 then Free else Paid;
    return Metrics(usage, Some(Cost(state, complete, if complete then Some(amount) else None, components[0].origin)));
  }

  function ComponentsOf(receipts: seq<Receipt>): seq<Cost> {
    if receipts == [] then [] else
    var front, last := ComponentsOf(receipts[..|receipts| - 1]), receipts[|receipts| - 1];
    if last.cost.Some? then front + [last.cost.value] else front
  }

  function Reduce(components: seq<Cost>): real {
    if components == [] then 0.0 else
    var last := components[|components| - 1];
    Reduce(components[..|components| - 1]) + if last.amount.Some? then last.amount.value else 0.0
  }

  lemma AddEmpty(u: Usage)
    ensures Add(u, map[]) == u && Add(map[], u) == u
  {}

  /** A whole call adds its usage to what has been counted. */
  lemma CallCounts(acc: Accumulator, u: Usage)
    requires acc.call == map[] && (!acc.sawUsage ==> acc.totals == map[])
    ensures var next := FlushCall(UsageDelta(acc, u));
      next.call == map[] && FinalizeUsage(next) == AddOptional(FinalizeUsage(acc), Some(u))
  {
    assert map[] + u == u;
    AddEmpty(acc.totals);
    AddEmpty(Add(acc.totals, u));
    AddEmpty(u);
  }

  /** What one call reports, piece by piece. */
  function Deltas(acc: Accumulator, us: seq<Usage>): Accumulator {
    if us == [] then acc else UsageDelta(Deltas(acc, us[..|us| - 1]), us[|us| - 1])
  }

  /** The value of a field that was reported last, if any report has it. */
  function LastReport(us: seq<Usage>, f: Field): Option<nat> {
    if us == [] then None
    else if f in us[|us| - 1] then Some(us[|us| - 1][f])
    else LastReport(us[..|us| - 1], f)
  }

  /** Of each field the last value reported counts, and one that was left out of later
      reports is not lost; the totals wait for the end of the call. */
  lemma {:induction false} LastSeen(acc: Accumulator, us: seq<Usage>, f: Field)
    ensures Deltas(acc, us).totals == acc.totals && (us != [] ==> Deltas(acc, us).sawUsage)
    ensures var call := Deltas(acc, us).call;
      match LastReport(us, f)
      case Some(n) => f in call && call[f] == n
      case None => (f in call <==> f in acc.call) && (f in call ==> call[f] == acc.call[f])
  {
    if us != [] {
      LastSeen(acc, us[..|us| - 1], f);
    }
  }

  /** A call that has ended counts once, however often its end is announced. */
  lemma EndsOnce(acc: Accumulator)
    ensures FlushCall(FlushCall(acc)) == FlushCall(acc)
  {
    AddEmpty(FlushCall(acc).totals);
  }

  lemma {:induction false} ComponentsTell(receipts: seq<Receipt>)
    ensures var d, components := Amounts(receipts), ComponentsOf(receipts);
      && d.any == (receipts != [])
      && |components| <= |receipts|
      && (d.complete <==> |components| == |receipts| && forall part :: part in components ==>
        part.complete && part.amount.Some?)
      && (d.complete ==> d.amount == Reduce(components))
      && (d.subscription <==> forall part :: part in components ==> part.state == Subscription)
      && d.first == (if components == [] then None else Some(components[0].origin))
  {
    if receipts != [] {
      ComponentsTell(receipts[..|receipts| - 1]);
      var front, last := ComponentsOf(receipts[..|receipts| - 1]), receipts[|receipts| - 1];
      if last.cost.Some? {
        assert (front + [last.cost.value])[..|front|] == front;
        assert forall part :: part in front + [last.cost.value] <==> part in front || part == last.cost.value;
      }
    }
  }

  // ---- What the aggregate says of its receipts ----

  function Tokens(receipts: seq<Receipt>, f: Field): nat {
    if receipts == [] then 0 else
    var last := receipts[|receipts| - 1];
    Tokens(receipts[..|receipts| - 1], f) + if last.usage.Some? && f in last.usage.value then last.usage.value[f] else 0
  }

  function Dollars(receipts: seq<Receipt>): real {
    if receipts == [] then 0.0 else
    var last := receipts[|receipts| - 1];
    Dollars(receipts[..|receipts| - 1])
    + if last.cost.Some? && last.cost.value.amount.Some? then last.cost.value.amount.value else 0.0
  }

  ghost predicate AllPriced(receipts: seq<Receipt>) {
    forall r :: r in receipts ==> r.cost.Some? && r.cost.value.complete && r.cost.value.amount.Some?
  }

  ghost predicate AllSubscribed(receipts: seq<Receipt>) {
    forall r :: r in receipts && r.cost.Some? ==> r.cost.value.state == Subscription
  }

  /** Receipt `i` is the first that is priced at all. */
  ghost predicate FirstPriced(receipts: seq<Receipt>, i: nat) {
    i < |receipts| && receipts[i].cost.Some? && forall j :: 0 <= j < i ==> receipts[j].cost.None?
  }

  lemma LastReceipt(receipts: seq<Receipt>)
    requires receipts != []
    ensures forall r :: r in receipts <==> r in receipts[..|receipts| - 1] || r == receipts[|receipts| - 1]
  {
    assert receipts == receipts[..|receipts| - 1] + [receipts[|receipts| - 1]];
  }

  lemma {:induction false} CostTells(receipts: seq<Receipt>)
    ensures var d := Amounts(receipts);
      && (d.any <==> receipts != []) && (d.complete <==> AllPriced(receipts))
      && (d.complete ==> d.amount == Dollars(receipts))
      && (d.subscription <==> AllSubscribed(receipts))
  {
    if receipts != [] {
      CostTells(receipts[..|receipts| - 1]);
      LastReceipt(receipts);
    }
  }

  lemma {:induction false} OriginTells(receipts: seq<Receipt>)
    ensures Amounts(receipts).first.None? ==> forall r :: r in receipts ==> r.cost.None?
    ensures forall i: nat :: FirstPriced(receipts, i) ==> Amounts(receipts).first == Some(receipts[i].cost.value.origin)
  {
    if receipts != [] {
      var front := receipts[..|receipts| - 1];
      OriginTells(front);
      LastReceipt(receipts);
      assert forall i: nat :: i < |front| ==> (FirstPriced(receipts, i) <==> FirstPriced(front, i));
      assert forall j :: 0 <= j < |front| ==> front[j] == receipts[j] && front[j] in front;
      if Amounts(front).first.Some? {
        FrontPriced(front);
      }
    }
  }

  lemma {:induction false} FrontPriced(receipts: seq<Receipt>)
    requires Amounts(receipts).first.Some?
    ensures exists j :: 0 <= j < |receipts| && receipts[j].cost.Some?
  {
    if receipts[|receipts| - 1].cost.None? {
      FrontPriced(receipts[..|receipts| - 1]);
    }
  }

  /** The aggregate has an estimate if any receipt has one: complete, with their sum, if
      each is priced in full; a subscription's if all are; else unknown, free or paid. */
  lemma MetricsMean(receipts: seq<Receipt>)
    ensures var m := Summarize(Amounts(receipts));
      && (m.cost.Some? <==> exists r :: r in receipts && r.cost.Some?)
      && (m.cost.Some? ==>
            && (m.cost.value.complete <==> AllPriced(receipts))
            && m.cost.value.amount == (if AllPriced(receipts) then Some(Dollars(receipts)) else None)
            && (m.cost.value.state == Subscription <==> AllSubscribed(receipts))
            && (m.cost.value.state == UnknownCost <==> !AllSubscribed(receipts) && !AllPriced(receipts))
            && (m.cost.value.state == Free <==>
                  !AllSubscribed(receipts) && AllPriced(receipts) && Dollars(receipts) == 0.0)
            && forall i: nat :: FirstPriced(receipts, i) ==> m.cost.value.origin == receipts[i].cost.value.origin)
  {
    CostTells(receipts);
    OriginTells(receipts);
    if Amounts(receipts).first.Some? {
      FrontPriced(receipts);
    }
  }

  /** And a token field if any receipt has it, with their sum. */
  lemma {:induction false} UsageMeans(receipts: seq<Receipt>, f: Field)
    ensures var usage := Summarize(Amounts(receipts)).usage;
      && usage == Amounts(receipts).usage
      && (usage.Some? <==> exists r :: r in receipts && r.usage.Some?)
      && (usage.Some? ==>
            && (f in usage.value <==> exists r :: r in receipts && r.usage.Some? && f in r.usage.value)
            && Get(usage.value, f) == Tokens(receipts, f))
      && (usage.None? ==> Tokens(receipts, f) == 0)
  {
    if receipts != [] {
      UsageMeans(receipts[..|receipts| - 1], f);
      LastReceipt(receipts);
    }
  }

  // ---- Folding ----

  /** The aggregate of some receipts, as a receipt. */
  function AsReceipt(m: Metrics): Receipt {
    Receipt(m.usage, m.cost)
  }

  lemma AddAssociates(a: Usage, b: Usage, c: Usage)
    ensures Add(a, Add(b, c)) == Add(Add(a, b), c)
  {
    var x, y := Add(a, Add(b, c)), Add(Add(a, b), c);
    assert x.Keys == y.Keys;
    forall f | f in x.Keys
      ensures x[f] == y[f]
    {}
  }

  lemma CombineAssociates(a: Digest, b: Digest, c: Digest)
    ensures Combine(a, Combine(b, c)) == Combine(Combine(a, b), c)
  {
    if a.usage.Some? && b.usage.Some? && c.usage.Some? {
      AddAssociates(a.usage.value, b.usage.value, c.usage.value);
    }
  }

  /** Amounts stay nothing where they are not known. */
  ghost predicate Proper(d: Digest) {
    (!d.complete ==> d.amount == 0.0) && (!d.any ==> d == NOTHING)
  }

  lemma {:induction false} AmountsProper(receipts: seq<Receipt>)
    ensures Proper(Amounts(receipts)) && (receipts != [] <==> Amounts(receipts).any)
  {
    if receipts != [] {
      AmountsProper(receipts[..|receipts| - 1]);
    }
  }

  lemma NothingCombines(d: Digest)
    requires Proper(d)
    ensures Combine(d, NOTHING) == d && Combine(NOTHING, d) == d
  {}

  lemma {:induction false} AmountsAppend(a: seq<Receipt>, b: seq<Receipt>)
    ensures Amounts(a + b) == Combine(Amounts(a), Amounts(b))
    decreases |b|
  {
    AmountsProper(a);
    if b == [] {
      assert a + b == a;
      NothingCombines(Amounts(a));
    } else {
      var front, last := b[..|b| - 1], b[|b| - 1];
      assert (a + b)[..|a + b| - 1] == a + front;
      AmountsAppend(a, front);
      CombineAssociates(Amounts(a), Amounts(front), One(last));
    }
  }

  /** Replacing receipts by their aggregate loses nothing of the digest. */
  lemma AggregateStands(receipts: seq<Receipt>)
    requires receipts != []
    ensures One(AsReceipt(Summarize(Amounts(receipts)))) == Amounts(receipts)
  {
    AmountsProper(receipts);
    if Amounts(receipts).first.None? {
      FirstTells(receipts);
    }
  }

  /** Without any estimate nothing is complete and nothing is not a subscription's. */
  lemma {:induction false} FirstTells(receipts: seq<Receipt>)
    requires receipts != [] && Amounts(receipts).first.None?
    ensures !Amounts(receipts).complete && Amounts(receipts).subscription
  {
    if |receipts| > 1 {
      FirstTells(receipts[..|receipts| - 1]);
    }
  }

  class ReceiptList {
    var receipts: seq<Receipt>

    constructor ()
      ensures receipts == []
    {
      receipts := [];
    }

    /** push; beyond 64, splice off the first 32 and unshift their aggregate. */
    method AppendNativeReceipt(receipt: Receipt)
      modifies this
      ensures receipts == Append(old(receipts), receipt)
    {
      receipts := receipts + [receipt];
      if |receipts| <= MAX_RECEIPTS {
        return;
      }
      var spliced := receipts[..FOLDED];
      receipts := receipts[FOLDED..];
      var aggregate := NativeTurnMetrics(spliced);
      receipts := [AsReceipt(aggregate)] + receipts;
    }
  }

  function Append(receipts: seq<Receipt>, receipt: Receipt): seq<Receipt> {
    var all := receipts + [receipt];
    if |all| <= MAX_RECEIPTS then all else [AsReceipt(Summarize(Amounts(all[..FOLDED])))] + all[FOLDED..]
  }

  /** The list after appending these receipts one by one. */
  function Fold(receipts: seq<Receipt>): seq<Receipt> {
    if receipts == [] then [] else Append(Fold(receipts[..|receipts| - 1]), receipts[|receipts| - 1])
  }

  lemma AppendKeepsAmounts(receipts: seq<Receipt>, receipt: Receipt)
    ensures Amounts(Append(receipts, receipt)) == Combine(Amounts(receipts), One(receipt))
  {
    var all := receipts + [receipt];
    assert all[..|all| - 1] == receipts;
    if |all| > MAX_RECEIPTS {
      var front, rest := all[..FOLDED], all[FOLDED..];
      assert all == front + rest;
      AmountsAppend(front, rest);
      AggregateStands(front);
      var aggregate := AsReceipt(Summarize(Amounts(front)));
      AmountsAppend([aggregate], rest);
      OnlyOne(aggregate);
    }
  }

  lemma OnlyOne(r: Receipt)
    ensures Amounts([r]) == One(r)
  {
    assert [r][..0] == [];
    if r.usage.Some? {
      AddEmpty(r.usage.value);
    }
  }

  /** However many receipts are appended, at most 64 are kept, and they amount to
      what all of them amount to: usage, price, completeness, state and origin. */
  lemma {:induction false} FoldKeepsMetrics(receipts: seq<Receipt>)
    ensures |Fold(receipts)| <= MAX_RECEIPTS
    ensures Amounts(Fold(receipts)) == Amounts(receipts)
    ensures Summarize(Amounts(Fold(receipts))) == Summarize(Amounts(receipts))
  {
    if receipts != [] {
      FoldKeepsMetrics(receipts[..|receipts| - 1]);
      AppendKeepsAmounts(Fold(receipts[..|receipts| - 1]), receipts[|receipts| - 1]);
    }
  }

  lemma AppendShape(kept: seq<Receipt>, last: Receipt)
    requires |kept| <= 64
    ensures |kept| < 64 ==> Append(kept, last) == kept + [last]
    ensures |kept| == 64 ==> |Append(kept, last)| == 34 && Append(kept, last)[1..] == (kept + [last])[32..]
  {}

  /** The newest receipts of a list, and one more. */
  lemma NewestAnd(front: seq<Receipt>, last: Receipt, kept: seq<Receipt>, n: nat)
    requires 0 < n <= |kept| <= |front| + 1 && kept[1..] == front[|front| + 1 - |kept|..]
    ensures (kept + [last])[n..] == (front + [last])[|front| + n - |kept|..]
  {
    assert kept[n..] == kept[1..][n - 1..];
    assert (kept + [last])[n..] == kept[n..] + [last];
  }

  /** All of up to 64 receipts; beyond, the newest ones behind an aggregate. */
  ghost predicate Shaped(kept: seq<Receipt>, receipts: seq<Receipt>) {
    && (|receipts| <= 64 ==> kept == receipts)
    && (|receipts| > 64 ==>
          |kept| == 34 + (|receipts| - 65) % 31 && kept[1..] == receipts[|receipts| - |kept| + 1..])
  }

  lemma ShapeStep(kept: seq<Receipt>, front: seq<Receipt>, last: Receipt, next: seq<Receipt>)
    requires Shaped(kept, front)
    requires |kept| < 64 ==> next == kept + [last]
    requires |kept| == 64 ==> |next| == 34 && next[1..] == (kept + [last])[32..]
    ensures Shaped(next, front + [last])
  {
    if |front| >= 64 {
      NewestAnd(front, last, kept, if |kept| == 64 then 32 else 1);
    }
  }

  /** Up to 64 receipts are kept as they are. Beyond, the newest are, behind one aggregate:
      33 of them right after a fold, and up to 63 before the next. */
  lemma {:induction false} FoldShape(receipts: seq<Receipt>)
    ensures Shaped(Fold(receipts), receipts)
  {
    if receipts != [] {
      var front, last := receipts[..|receipts| - 1], receipts[|receipts| - 1];
      FoldShape(front);
      AppendShape(Fold(front), last);
      ShapeStep(Fold(front), front, last, Fold(receipts));
      assert receipts == front + [last];
    }
  }
}
