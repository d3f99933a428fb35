/** The streaming residue matcher of the artifact scanner: it decides each
    occurrence once, with 256 bytes of look-back and 4096 bytes held back. */
module Matcher {
  import opened Prelude
  import opened Bytes

  const HELD_BACK: nat := 4096
  const LOOK_BACK: nat := 256
  /** An occurrence below the cutoff has at least this much of the input after its start. */
  const REACH: nat := HELD_BACK + 1

  /** One encoded needle of one rule. `decide` is what the source still asks about
      an occurrence at an index of the buffer: the boundary characters of a private
      checkout, the approved spans of a namespace, the account of a home root. */
  datatype Pattern = Pattern(rule: string, needle: seq<Byte>, folded: bool, decide: (seq<Byte>, nat) -> bool)

  // ---- Searching a buffer ----

  /** bytes.lower(). */
  function Lower(b: Byte): Byte {
    if 65 <= b <= 90 then b + 32 else b
  }

  predicate Same(p: Pattern, a: Byte, b: Byte) {
    if p.folded then Lower(a) == Lower(b) else a == b
  }

  predicate OccursAt(p: Pattern, buf: seq<Byte>, i: nat) {
    i + |p.needle| <= |buf| && forall k :: 0 <= k < |p.needle| ==> Same(p, buf[i + k], p.needle[k])
  }

  /** bytes.find(needle, start). */
  function Next(p: Pattern, buf: seq<Byte>, start: nat): (found: Option<nat>)
    ensures found.Some? ==> start <= found.value && OccursAt(p, buf, found.value)
    ensures forall i: nat :: start <= i && OccursAt(p, buf, i) ==> found.Some? && found.value <= i
    decreases |buf| - start
  {
    if start + |p.needle| > |buf| then None
    else if OccursAt(p, buf, start) then Some(start)
    else Next(p, buf, start + 1)
  }

  function Skip(p: Pattern): (n: nat)
    ensures n >= 1
  {
    if |p.needle| == 0 then 1 else |p.needle|
  }

  /** The source's scan of one needle from `start`: left to right, skipping past
      each occurrence, reporting those in [context, cutoff) that are decided. */
  predicate Reports(p: Pattern, buf: seq<Byte>, context: nat, cutoff: nat, start: nat)
    decreases if start < cutoff then cutoff - start else 0
  {
    var found := Next(p, buf, start);
    if found.None? || found.value >= cutoff then false else
    (found.value >= context && p.decide(buf, found.value)) || Reports(p, buf, context, cutoff, found.value + Skip(p))
  }

  // ---- The matcher as a state ----

  datatype State = State(tail: seq<Byte>, context: nat, found: set<string>)

  const START := State([], 0, {})

  function Cutoff(length: nat, final: bool): nat {
    if final then length else if length < HELD_BACK then 0 else length - HELD_BACK
  }

  function Keep(cutoff: nat): nat {
    if cutoff < LOOK_BACK then 0 else cutoff - LOOK_BACK
  }

  function Only(rule: string, found: bool): set<string> {
    if found then {rule} else {}
  }

  function Reported(patterns: seq<Pattern>, buf: seq<Byte>, context: nat, cutoff: nat): set<string> {
    if patterns == [] then {} else
    Only(patterns[0].rule, Reports(patterns[0], buf, context, cutoff, 0))
    + Reported(patterns[1..], buf, context, cutoff)
  }

  function FeedState(patterns: seq<Pattern>, st: State, data: seq<Byte>, final: bool): State {
    var buf := st.tail + data;
    var cutoff := Cutoff(|buf|, final);
    State(buf[Keep(cutoff)..], cutoff - Keep(cutoff), st.found + Reported(patterns, buf, st.context, cutoff))
  }

  function FeedAll(patterns: seq<Pattern>, st: State, chunks: seq<seq<Byte>>): State
    decreases |chunks|
  {
    if chunks == [] then st else FeedAll(patterns, FeedState(patterns, st, chunks[0], false), chunks[1..])
  }

  /** `Scanner.chunks`: every chunk, then an empty final feed. */
  function Streamed(patterns: seq<Pattern>, chunks: seq<seq<Byte>>): set<string> {
    FeedState(patterns, FeedAll(patterns, START, chunks), [], true).found
  }

  /** One final feed of the whole input. */
  function Whole(patterns: seq<Pattern>, s: seq<Byte>): set<string> {
    FeedState(patterns, START, s, true).found
  }

  // ---- What a scan should find ----

  ghost predicate Hit(p: Pattern, s: seq<Byte>, i: nat) {
    OccursAt(p, s, i) && p.decide(s, i)
  }

  ghost predicate HitBelow(p: Pattern, s: seq<Byte>, limit: nat) {
    exists i: nat :: i < limit && Hit(p, s, i)
  }

  /** The rules with a decided occurrence below `limit`, each judged on the whole input. */
  ghost function RulesBelow(patterns: seq<Pattern>, s: seq<Byte>, limit: nat): set<string> {
    if patterns == [] then {} else
    Only(patterns[0].rule, HitBelow(patterns[0], s, limit)) + RulesBelow(patterns[1..], s, limit)
  }

  /** An occurrence at `i` may come up for decision in the buffer s[lo..hi]. */
  ghost predicate InView(p: Pattern, s: seq<Byte>, lo: nat, hi: nat, i: nat) {
    && OccursAt(p, s, i)
    && lo <= i < hi <= |s|
    && (lo == 0 || lo + LOOK_BACK <= i)
    && (hi == |s| || i + REACH <= hi)
  }

  ghost predicate SameVerdict(p: Pattern, s: seq<Byte>, lo: nat, hi: nat, i: nat)
    requires lo <= i && lo <= hi <= |s|
  {
    p.decide(s[lo..hi], i - lo) == p.decide(s, i)
  }

  /** The buffer s[lo..hi] gives every occurrence that may come up in it the verdict
      that the whole input does. */
  ghost predicate Agrees(p: Pattern, s: seq<Byte>, lo: nat, hi: nat) {
    forall i: nat :: InView(p, s, lo, hi, i) ==> SameVerdict(p, s, lo, hi, i)
  }

  /** On this input the verdict looks at most 256 bytes back and stays inside the
      held-back window. */
  ghost predicate Local(p: Pattern, s: seq<Byte>) {
    forall lo: nat, hi: nat :: Agrees(p, s, lo, hi)
  }

  ghost predicate Overlap(p: Pattern, s: seq<Byte>, i: nat, j: nat) {
    i < j < i + |p.needle| && OccursAt(p, s, i) && OccursAt(p, s, j)
  }

  /** Of two overlapping occurrences the earlier is decided whenever the later is:
      so for a needle that cannot overlap itself, and for one without a decision. */
  ghost predicate EarlierWins(p: Pattern, s: seq<Byte>) {
    forall i: nat, j: nat :: Overlap(p, s, i, j) && p.decide(s, j) ==> p.decide(s, i)
  }

  ghost predicate Neat(p: Pattern, s: seq<Byte>) {
    1 <= |p.needle| <= REACH && EarlierWins(p, s)
  }

  ghost predicate Tame(p: Pattern, s: seq<Byte>) {
    Neat(p, s) && Local(p, s)
  }

  ghost predicate AllNeat(patterns: seq<Pattern>, s: seq<Byte>) {
    forall p :: p in patterns ==> Neat(p, s)
  }

  ghost predicate AllAgree(patterns: seq<Pattern>, s: seq<Byte>, lo: nat, hi: nat) {
    forall p :: p in patterns ==> Agrees(p, s, lo, hi)
  }

  ghost predicate AllTame(patterns: seq<Pattern>, s: seq<Byte>) {
    forall p :: p in patterns ==> Tame(p, s)
  }

  // ---- One scan of one buffer ----

  /** An occurrence in a slice is an occurrence in the whole. */
  lemma OccursInSlice(p: Pattern, s: seq<Byte>, lo: nat, hi: nat, i: nat)
    requires lo <= i && lo <= hi <= |s| && i + |p.needle| <= hi
    ensures OccursAt(p, s[lo..hi], i - lo) <==> OccursAt(p, s, i)
  {
    forall k | 0 <= k < |p.needle|
      ensures Same(p, s[lo..hi][i - lo + k], p.needle[k]) == Same(p, s[i + k], p.needle[k])
    {}
  }

  /** The slice s[lo..hi] when everything below `from` has been decided and
      everything below `to` is about to be. */
  ghost predicate ScanOf(s: seq<Byte>, lo: nat, hi: nat, from: nat, to: nat) {
    && lo <= from <= to <= hi <= |s|
    && (lo == 0 || lo + LOOK_BACK <= from)
    && (from < to ==> hi == |s| || to + HELD_BACK <= hi)
  }

  lemma {:induction false} ReportedAt(p: Pattern, buf: seq<Byte>, context: nat, cutoff: nat, start: nat)
      returns (i: nat)
    requires Reports(p, buf, context, cutoff, start)
    ensures context <= i < cutoff && OccursAt(p, buf, i) && p.decide(buf, i)
    decreases if start < cutoff then cutoff - start else 0
  {
    i := Next(p, buf, start).value;
    if i < context || !p.decide(buf, i) {
      i := ReportedAt(p, buf, context, cutoff, i + Skip(p));
    }
  }

  lemma ScanSound(p: Pattern, s: seq<Byte>, lo: nat, hi: nat, from: nat, to: nat)
    requires Neat(p, s) && Agrees(p, s, lo, hi) && ScanOf(s, lo, hi, from, to)
    requires Reports(p, s[lo..hi], from - lo, to - lo, 0)
    ensures HitBelow(p, s, to)
  {
    var i := ReportedAt(p, s[lo..hi], from - lo, to - lo, 0);
    OccursInSlice(p, s, lo, hi, lo + i);
    assert InView(p, s, lo, hi, lo + i) && SameVerdict(p, s, lo, hi, lo + i);
    assert Hit(p, s, lo + i);
  }

  ghost predicate Covers(p: Pattern, buf: seq<Byte>, n: nat, i: nat) {
    OccursAt(p, buf, n) && n <= i < n + Skip(p)
  }

  /** The greedy scan stops at some occurrence that covers `i`. */
  lemma {:induction false} GreedyCovers(p: Pattern, buf: seq<Byte>, context: nat, cutoff: nat, start: nat, i: nat)
    requires start <= i < cutoff && OccursAt(p, buf, i)
    requires forall n: nat :: context <= n && Covers(p, buf, n, i) ==> p.decide(buf, n)
    ensures Reports(p, buf, context, cutoff, start) || exists n: nat :: n < context && Covers(p, buf, n, i)
    decreases i - start
  {
    var n := Next(p, buf, start).value;
    if n + Skip(p) <= i {
      GreedyCovers(p, buf, context, cutoff, n + Skip(p), i);
    } else {
      assert Covers(p, buf, n, i);
    }
  }

  /** Whatever covers a hit is a hit. */
  lemma CoverIsHit(p: Pattern, s: seq<Byte>, lo: nat, hi: nat, from: nat, to: nat, n: nat, i: nat)
    requires Neat(p, s) && Agrees(p, s, lo, hi) && ScanOf(s, lo, hi, from, to)
    requires lo <= i < to && Hit(p, s, i) && Covers(p, s[lo..hi], n, i - lo)
    ensures Hit(p, s, lo + n) && (from <= lo + n ==> p.decide(s[lo..hi], n))
  {
    OccursInSlice(p, s, lo, hi, lo + n);
    assert lo + n < i ==> Overlap(p, s, lo + n, i);
    if from <= lo + n {
      assert InView(p, s, lo, hi, lo + n) && SameVerdict(p, s, lo, hi, lo + n);
    }
  }

  /** In the slice of `s` from `lo`, every stop that covers index `at` is a hit. */
  ghost predicate CoversHit(p: Pattern, s: seq<Byte>, lo: nat, buf: seq<Byte>, context: nat, at: nat) {
    forall n: nat :: Covers(p, buf, n, at) ==> Hit(p, s, lo + n) && (context <= n ==> p.decide(buf, n))
  }

  lemma CoversAreHits(p: Pattern, s: seq<Byte>, lo: nat, hi: nat, from: nat, to: nat, i: nat)
    requires Neat(p, s) && Agrees(p, s, lo, hi) && ScanOf(s, lo, hi, from, to)
    requires from <= i < to && Hit(p, s, i)
    ensures OccursAt(p, s[lo..hi], i - lo) && CoversHit(p, s, lo, s[lo..hi], from - lo, i - lo)
  {
    OccursInSlice(p, s, lo, hi, i);
    var buf, at := s[lo..hi], i - lo;
    forall n: nat | Covers(p, buf, n, at)
      ensures Hit(p, s, lo + n) && (from - lo <= n ==> p.decide(buf, n))
    {
      CoverIsHit(p, s, lo, hi, from, to, n, i);
    }
  }

  lemma ScanComplete(p: Pattern, s: seq<Byte>, lo: nat, buf: seq<Byte>, context: nat, cutoff: nat, at: nat)
    requires context <= at < cutoff && OccursAt(p, buf, at) && CoversHit(p, s, lo, buf, context, at)
    ensures Reports(p, buf, context, cutoff, 0) || HitBelow(p, s, lo + context)
  {
    GreedyCovers(p, buf, context, cutoff, 0, at);
    if n: nat :| n < context && Covers(p, buf, n, at) {
      assert Hit(p, s, lo + n);
    }
  }

  lemma ScanCatches(p: Pattern, s: seq<Byte>, lo: nat, hi: nat, from: nat, to: nat, i: nat)
    requires Neat(p, s) && Agrees(p, s, lo, hi) && ScanOf(s, lo, hi, from, to)
    requires from <= i < to && Hit(p, s, i)
    ensures Reports(p, s[lo..hi], from - lo, to - lo, 0) || HitBelow(p, s, from)
  {
    CoversAreHits(p, s, lo, hi, from, to, i);
    ScanComplete(p, s, lo, s[lo..hi], from - lo, to - lo, i - lo);
  }

  lemma ScanMoves(p: Pattern, s: seq<Byte>, lo: nat, hi: nat, from: nat, to: nat)
    requires Neat(p, s) && Agrees(p, s, lo, hi) && ScanOf(s, lo, hi, from, to)
    ensures HitBelow(p, s, to) <==> HitBelow(p, s, from) || Reports(p, s[lo..hi], from - lo, to - lo, 0)
  {
    if Reports(p, s[lo..hi], from - lo, to - lo, 0) {
      ScanSound(p, s, lo, hi, from, to);
    }
    if i: nat :| from <= i < to && Hit(p, s, i) {
      ScanCatches(p, s, lo, hi, from, to, i);
    }
  }

  /** One scan adds exactly the rules of the occurrences it newly covers. */
  lemma {:induction false} ScanCovers(patterns: seq<Pattern>, s: seq<Byte>, lo: nat, hi: nat, from: nat, to: nat)
    requires AllNeat(patterns, s) && AllAgree(patterns, s, lo, hi) && ScanOf(s, lo, hi, from, to)
    ensures RulesBelow(patterns, s, from) + Reported(patterns, s[lo..hi], from - lo, to - lo)
      == RulesBelow(patterns, s, to)
    decreases |patterns|
  {
    if patterns != [] {
      assert patterns[0] in patterns;
      ScanMoves(patterns[0], s, lo, hi, from, to);
      ScanCovers(patterns[1..], s, lo, hi, from, to);
    }
  }

  // ---- Whole runs ----

  /** Everything below the frontier is decided once `fed` bytes have arrived. */
  function Frontier(fed: nat): nat {
    Cutoff(fed, false)
  }

  /** After `fed` bytes of `s`: what is carried depends on nothing but the input. */
  ghost predicate Carries(st: State, s: seq<Byte>, fed: nat) {
    && fed <= |s|
    && st.tail == s[Keep(Frontier(fed))..fed]
    && st.context == Frontier(fed) - Keep(Frontier(fed))
  }

  /** A feed scans one slice of the input, from one frontier to the next. */
  lemma FeedScans(st: State, s: seq<Byte>, fed: nat, data: seq<Byte>, final: bool) returns (lo: nat, to: nat)
    requires Carries(st, s, fed) && fed + |data| <= |s| && s[fed..fed + |data|] == data
    requires final ==> fed + |data| == |s|
    ensures ScanOf(s, lo, fed + |data|, Frontier(fed), to)
    ensures st.tail + data == s[lo..fed + |data|] && st.context == Frontier(fed) - lo
    ensures Cutoff(|st.tail + data|, final) == to - lo && to == if final then |s| else Frontier(fed + |data|)
  {
    lo, to := Keep(Frontier(fed)), if final then |s| else Frontier(fed + |data|);
    Rejoins(s, lo, fed, fed + |data|);
  }

  lemma Rejoins(s: seq<Byte>, lo: nat, mid: nat, hi: nat)
    requires lo <= mid <= hi <= |s|
    ensures s[lo..mid] + s[mid..hi] == s[lo..hi] && s[lo..hi][mid - lo..] == s[mid..hi]
  {}

  /** ... and carries the end of that slice on. */
  lemma FeedCarries(patterns: seq<Pattern>, st: State, s: seq<Byte>, fed: nat, data: seq<Byte>)
    requires Carries(st, s, fed) && fed + |data| <= |s| && s[fed..fed + |data|] == data
    ensures Carries(FeedState(patterns, st, data, false), s, fed + |data|)
  {
    var lo, to := FeedScans(st, s, fed, data, false);
    var hi := fed + |data|;
    assert lo + Keep(to - lo) == Keep(to);
    Rejoins(s, lo, Keep(to), hi);
  }

  lemma {:induction false} CarriedAlong(patterns: seq<Pattern>, st: State, s: seq<Byte>, fed: nat,
      chunks: seq<seq<Byte>>)
    requires Carries(st, s, fed) && s[fed..] == Flatten(chunks)
    ensures Carries(FeedAll(patterns, st, chunks), s, |s|)
    decreases |chunks|
  {
    if chunks != [] {
      var data, hi := chunks[0], fed + |chunks[0]|;
      assert s[fed..hi] == s[fed..][..|data|] == data;
      assert s[hi..] == s[fed..][|data|..] == Flatten(chunks[1..]);
      FeedCarries(patterns, st, s, fed, data);
      CarriedAlong(patterns, FeedState(patterns, st, data, false), s, hi, chunks[1..]);
    }
  }

  /** For any patterns and however the input comes, the carried tail never exceeds
      4352 bytes, it is the end of the input, and what has been decided ends 4096
      bytes before it: the frontier never moves back. */
  lemma TailBounded(patterns: seq<Pattern>, chunks: seq<seq<Byte>>, data: seq<Byte>)
    ensures var s, st := Flatten(chunks), FeedAll(patterns, START, chunks);
      && |st.tail| <= HELD_BACK + LOOK_BACK && |st.tail| <= |s| && st.tail == s[|s| - |st.tail|..]
      && |s| - |st.tail| + st.context == Frontier(|s|) <= Frontier(|Flatten(chunks + [data])|)
  {
    var s := Flatten(chunks);
    assert s[0..] == s;
    CarriedAlong(patterns, START, s, 0, chunks);
    FlattenConcat(chunks, [data]);
  }

  lemma FeedReports(patterns: seq<Pattern>, st: State, data: seq<Byte>, final: bool, buf: seq<Byte>, context: nat,
      cutoff: nat)
    requires st.tail + data == buf && st.context == context && Cutoff(|buf|, final) == cutoff
    ensures FeedState(patterns, st, data, final).found == st.found + Reported(patterns, buf, context, cutoff)
  {}

  /** One feed moves the set of rules found from one frontier to the next. */
  lemma FeedFinds(patterns: seq<Pattern>, st: State, s: seq<Byte>, fed: nat, data: seq<Byte>, final: bool)
      returns (to: nat)
    requires AllNeat(patterns, s) && AllAgree(patterns, s, Keep(Frontier(fed)), fed + |data|)
    requires Carries(st, s, fed) && fed + |data| <= |s| && s[fed..fed + |data|] == data
    requires final ==> fed + |data| == |s|
    requires st.found == RulesBelow(patterns, s, Frontier(fed))
    ensures to == (if final then |s| else Frontier(fed + |data|))
    ensures FeedState(patterns, st, data, final).found == RulesBelow(patterns, s, to)
  {
    var lo;
    lo, to := FeedScans(st, s, fed, data, final);
    FeedReports(patterns, st, data, final, s[lo..fed + |data|], Frontier(fed) - lo, to - lo);
    ScanCovers(patterns, s, lo, fed + |data|, Frontier(fed), to);
  }

  lemma TameAgree(patterns: seq<Pattern>, s: seq<Byte>, lo: nat, hi: nat)
    requires AllTame(patterns, s)
    ensures AllNeat(patterns, s) && AllAgree(patterns, s, lo, hi)
  {}

  lemma {:induction false} FedSoFar(patterns: seq<Pattern>, st: State, s: seq<Byte>, fed: nat, chunks: seq<seq<Byte>>)
    requires AllTame(patterns, s)
    requires Carries(st, s, fed) && s[fed..] == Flatten(chunks) && st.found == RulesBelow(patterns, s, Frontier(fed))
    ensures var end := FeedAll(patterns, st, chunks);
      Carries(end, s, |s|) && end.found == RulesBelow(patterns, s, Frontier(|s|))
    decreases |chunks|
  {
    if chunks == [] {
    } else {
      var data, hi := chunks[0], fed + |chunks[0]|;
      assert s[fed..hi] == s[fed..][..|data|] == data;
      assert s[hi..] == s[fed..][|data|..] == Flatten(chunks[1..]);
      TameAgree(patterns, s, Keep(Frontier(fed)), hi);
      var _ := FeedFinds(patterns, st, s, fed, data, false);
      FeedCarries(patterns, st, s, fed, data);
      FedSoFar(patterns, FeedState(patterns, st, data, false), s, hi, chunks[1..]);
    }
  }

  lemma {:induction false} NothingBelowZero(patterns: seq<Pattern>, s: seq<Byte>)
    ensures RulesBelow(patterns, s, 0) == {}
    decreases |patterns|
  {
    if patterns != [] {
      NothingBelowZero(patterns[1..], s);
    }
  }

  /** One final feed finds exactly the rules with a decided occurrence, however far its
      decisions look. */
  lemma WholeFinds(patterns: seq<Pattern>, s: seq<Byte>)
    requires AllNeat(patterns, s)
    ensures Whole(patterns, s) == RulesBelow(patterns, s, |s|)
  {
    NothingBelowZero(patterns, s);
    assert s[0..|s|] == s;
    var _ := FeedFinds(patterns, START, s, 0, s, true);
  }

  /** However the input is cut into chunks, the same rules are found as by one
      final feed of all of it. */
  lemma ChunkingIrrelevant(patterns: seq<Pattern>, chunks: seq<seq<Byte>>)
    requires AllTame(patterns, Flatten(chunks))
    ensures Streamed(patterns, chunks) == Whole(patterns, Flatten(chunks))
    ensures Streamed(patterns, chunks) == RulesBelow(patterns, Flatten(chunks), |Flatten(chunks)|)
  {
    var s := Flatten(chunks);
    NothingBelowZero(patterns, s);
    assert s[0..] == s;
    FedSoFar(patterns, START, s, 0, chunks);
    TameAgree(patterns, s, Keep(Frontier(|s|)), |s|);
    var _ := FeedFinds(patterns, FeedAll(patterns, START, chunks), s, |s|, [], true);
    WholeFinds(patterns, s);
  }

  // ---- Pattern by pattern ----

  lemma FeedSplits(first: Pattern, rest: seq<Pattern>, st: State, a: State, b: State, data: seq<Byte>, final: bool)
    requires st.tail == a.tail == b.tail && st.context == a.context == b.context && st.found == a.found + b.found
    ensures var next, x, y := FeedState([first] + rest, st, data, final), FeedState([first], a, data, final),
        FeedState(rest, b, data, final);
      && next.tail == x.tail == y.tail && next.context == x.context == y.context && next.found == x.found + y.found
  {
    var buf, all := st.tail + data, [first] + rest;
    var cutoff := Cutoff(|buf|, final);
    assert all[0] == first && all[1..] == rest && [first][1..] == [];
    assert Reported(all, buf, st.context, cutoff)
      == Reported([first], buf, st.context, cutoff) + Reported(rest, buf, st.context, cutoff);
  }

  lemma {:induction false} RunSplits(first: Pattern, rest: seq<Pattern>, st: State, a: State, b: State,
      chunks: seq<seq<Byte>>)
    requires st.tail == a.tail == b.tail && st.context == a.context == b.context && st.found == a.found + b.found
    ensures var end, x, y := FeedAll([first] + rest, st, chunks), FeedAll([first], a, chunks), FeedAll(rest, b, chunks);
      && end.tail == x.tail == y.tail && end.context == x.context == y.context && end.found == x.found + y.found
    decreases |chunks|
  {
    if chunks != [] {
      FeedSplits(first, rest, st, a, b, chunks[0], false);
      RunSplits(first, rest, FeedState([first] + rest, st, chunks[0], false), FeedState([first], a, chunks[0], false),
        FeedState(rest, b, chunks[0], false), chunks[1..]);
    }
  }

  /** A list of patterns finds what its patterns find one by one. */
  lemma FindsApart(first: Pattern, rest: seq<Pattern>, chunks: seq<seq<Byte>>)
    ensures Streamed([first] + rest, chunks) == Streamed([first], chunks) + Streamed(rest, chunks)
    ensures Whole([first] + rest, Flatten(chunks)) == Whole([first], Flatten(chunks)) + Whole(rest, Flatten(chunks))
  {
    RunSplits(first, rest, START, START, START, chunks);
    FeedSplits(first, rest, FeedAll([first] + rest, START, chunks), FeedAll([first], START, chunks),
      FeedAll(rest, START, chunks), [], true);
    FeedSplits(first, rest, START, START, START, Flatten(chunks), true);
  }

  /** However this input is cut, the list finds the same. */
  ghost predicate AllIndependent(patterns: seq<Pattern>, s: seq<Byte>) {
    forall chunks: seq<seq<Byte>> :: Flatten(chunks) == s ==> Streamed(patterns, chunks) == Whole(patterns, s)
  }

  ghost predicate Independent(p: Pattern, s: seq<Byte>) {
    AllIndependent([p], s)
  }

  /** A list finds a rule exactly when one of its patterns does. */
  lemma {:induction false} ListFinds(patterns: seq<Pattern>, chunks: seq<seq<Byte>>, rule: string)
    ensures rule in Streamed(patterns, chunks) <==> exists q :: q in patterns && rule in Streamed([q], chunks)
    ensures rule in Whole(patterns, Flatten(chunks))
      <==> exists q :: q in patterns && rule in Whole([q], Flatten(chunks))
    decreases |patterns|
  {
    if patterns == [] {
      NoPatterns(START, chunks);
    } else {
      var first, rest := patterns[0], patterns[1..];
      assert patterns == [first] + rest;
      ListFinds(rest, chunks, rule);
      FindsApart(first, rest, chunks);
    }
  }

  /** A list is independent of the cutting where each of its patterns is. */
  lemma ListIndependent(patterns: seq<Pattern>, s: seq<Byte>)
    requires forall p :: p in patterns ==> Independent(p, s)
    ensures AllIndependent(patterns, s)
  {
    forall chunks: seq<seq<Byte>> | Flatten(chunks) == s
      ensures Streamed(patterns, chunks) == Whole(patterns, s)
    {
      forall rule
        ensures rule in Streamed(patterns, chunks) <==> rule in Whole(patterns, s)
      {
        ListFinds(patterns, chunks, rule);
        assert forall p :: p in patterns ==> Streamed([p], chunks) == Whole([p], s);
      }
    }
  }

  lemma {:induction false} NoPatterns(st: State, chunks: seq<seq<Byte>>)
    ensures FeedAll([], st, chunks).found == st.found
    decreases |chunks|
  {
    if chunks != [] {
      NoPatterns(FeedState([], st, chunks[0], false), chunks[1..]);
    }
  }

  lemma TameIndependent(p: Pattern, s: seq<Byte>)
    requires Tame(p, s)
    ensures Independent(p, s)
  {
    forall chunks: seq<seq<Byte>> | Flatten(chunks) == s
      ensures Streamed([p], chunks) == Whole([p], s)
    {
      ChunkingIrrelevant([p], chunks);
    }
  }

  // ---- The matcher that runs ----

  /** The scanner's findings are file and rule pairs. */
  class Findings {
    var found: set<(string, string)>

    constructor ()
      ensures found == {}
    {
      found := {};
    }

    method Find(file: string, rule: string)
      modifies this
      ensures Adds(old(found), found, file, {rule})
    {
      found := found + {(file, rule)};
    }
  }

  /** `after` is `before` with these rules found in this file. */
  ghost predicate Adds(before: set<(string, string)>, after: set<(string, string)>, file: string, rules: set<string>) {
    after == before + Filed(file, rules)
  }

  lemma AddsBoth(a: set<(string, string)>, b: set<(string, string)>, c: set<(string, string)>, file: string,
      r: set<string>, q: set<string>)
    requires Adds(a, b, file, r) && Adds(b, c, file, q)
    ensures Adds(a, c, file, r + q)
  {}

  function Filed(file: string, rules: set<string>): set<(string, string)> {
    set rule | rule in rules :: (file, rule)
  }

  class Matcher {
    const patterns: seq<Pattern>
    const scanner: Findings
    const file: string
    var tail: seq<Byte>
    var context: nat

    constructor (patterns: seq<Pattern>, scanner: Findings, file: string)
      ensures this.patterns == patterns && this.scanner == scanner && this.file == file
      ensures tail == [] && context == 0
    {
      this.patterns, this.scanner, this.file, tail, context := patterns, scanner, file, [], 0;
    }

    /** The inner loop over one needle. */
    method ScanNeedle(p: Pattern, buf: seq<Byte>, cutoff: nat)
      modifies scanner
      ensures Adds(old(scanner.found), scanner.found, file, Only(p.rule, Reports(p, buf, context, cutoff, 0)))
    {
      var start, going := 0, true;
      ghost var hit := false;
      while going
        invariant Adds(old(scanner.found), scanner.found, file, Only(p.rule, hit))
        invariant Reports(p, buf, context, cutoff, 0) == (hit || (going && Reports(p, buf, context, cutoff, start)))
        decreases going, if start < cutoff then cutoff - start else 0
      {
        var idx := Next(p, buf, start);
        if idx.None? || idx.value >= cutoff {
          going := false;
        } else {
          if idx.value >= context && p.decide(buf, idx.value) {
            scanner.Find(file, p.rule);
            hit := true;
          }
          start := idx.value + Skip(p);
        }
      }
    }

    method Feed(data: seq<Byte>, final: bool)
      modifies this, scanner
      ensures var next := FeedState(patterns, State(old(tail), old(context), {}), data, final);
        tail == next.tail && context == next.context
        && Adds(old(scanner.found), scanner.found, file, next.found)
    {
      var buf := tail + data;
      var cutoff := Cutoff(|buf|, final);
      assert patterns[0..] == patterns;
      ghost var hits: set<string> := {};
      for k := 0 to |patterns|
        invariant tail == old(tail) && context == old(context)
        invariant Adds(old(scanner.found), scanner.found, file, hits)
        invariant hits + Reported(patterns[k..], buf, context, cutoff) == Reported(patterns, buf, context, cutoff)
      {
        ghost var before := scanner.found;
        ScanNeedle(patterns[k], buf, cutoff);
        ghost var more := Only(patterns[k].rule, Reports(patterns[k], buf, context, cutoff, 0));
        AddsBoth(old(scanner.found), before, scanner.found, file, hits, more);
        assert patterns[k..][1..] == patterns[k + 1..];
        hits := hits + more;
      }
      var keep := Keep(cutoff);
      tail := buf[keep..];
      context := cutoff - keep;
    }
  }

  /** The reading loop of `Scanner.chunks`: the stream in the pieces it was read in (a
      read returns nothing only at the end), under the cumulative limits on expanded
      bytes and, when the stream is spooled, on temporary bytes. */
  method ScanChunks(patterns: seq<Pattern>, scanner: Findings, file: string, chunks: seq<seq<Byte>>, used: nat,
      maxExpandedBytes: nat, spool: bool, temporary: nat, maxTemporaryBytes: nat) returns (r: Result<nat, string>)
    requires forall c :: c in chunks ==> c != []
    modifies scanner
    ensures chunks == [] ==> r.Success?
    ensures chunks != [] ==>
      (r.Success? <==>
        used + |Flatten(chunks)| <= maxExpandedBytes && (spool ==> temporary + |Flatten(chunks)| <= maxTemporaryBytes))
    ensures r.Success? ==> r.value == |Flatten(chunks)|
    ensures r.Success? ==> Adds(old(scanner.found), scanner.found, file, Streamed(patterns, chunks))
    ensures r.Success? && (forall p :: p in patterns ==> Independent(p, Flatten(chunks))) ==>
      Adds(old(scanner.found), scanner.found, file, Whole(patterns, Flatten(chunks)))
  {
    var matcher := new Matcher(patterns, scanner, file);
    var size := 0;
    ghost var st := START;
    for k := 0 to |chunks|
      invariant matcher.patterns == patterns && matcher.scanner == scanner && matcher.file == file
      invariant matcher.tail == st.tail && matcher.context == st.context
      invariant Adds(old(scanner.found), scanner.found, file, st.found)
      invariant FeedAll(patterns, st, chunks[k..]) == FeedAll(patterns, START, chunks)
      invariant size + |Flatten(chunks[k..])| == |Flatten(chunks)|
      invariant k > 0 ==> used + size <= maxExpandedBytes && (spool ==> temporary + size <= maxTemporaryBytes)
    {
      assert chunks[k..][1..] == chunks[k + 1..];
      size := size + |chunks[k]|;
      if used + size > maxExpandedBytes {
        return Failure("expanded-byte-limit");
      }
      ghost var before := scanner.found;
      matcher.Feed(chunks[k], false);
      FeedAdds(patterns, st, chunks[k], false, old(scanner.found), before, scanner.found, file);
      st := FeedState(patterns, st, chunks[k], false);
      if spool && temporary + size > maxTemporaryBytes {
        return Failure("temporary-byte-limit");
      }
    }
    ghost var before := scanner.found;
    matcher.Feed([], true);
    FeedAdds(patterns, st, [], true, old(scanner.found), before, scanner.found, file);
    if forall p :: p in patterns ==> Independent(p, Flatten(chunks)) {
      ListIndependent(patterns, Flatten(chunks));
    }
    return Success(size);
  }

  lemma FeedAdds(patterns: seq<Pattern>, st: State, data: seq<Byte>, final: bool, a: set<(string, string)>,
      b: set<(string, string)>, c: set<(string, string)>, file: string)
    requires Adds(a, b, file, st.found)
    requires Adds(b, c, file, FeedState(patterns, State(st.tail, st.context, {}), data, final).found)
    ensures Adds(a, c, file, FeedState(patterns, st, data, final).found)
  {
    AddsBoth(a, b, c, file, st.found, FeedState(patterns, State(st.tail, st.context, {}), data, final).found);
    assert FeedState(patterns, st, data, final).found
      == st.found + FeedState(patterns, State(st.tail, st.context, {}), data, final).found;
  }
}
