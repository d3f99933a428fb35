/** What one pattern finds in an input, depending on how the input is cut: which feed
    decides an occurrence, in which buffer, and what follows for the whole run. */
module Cutting {
  import opened Prelude
  import opened Bytes
  import opened Matcher

  // ---- Windows ----

  /** The buffers in which the matcher can decide an occurrence at `i`: some feed's,
      or at the very end the carried tail. */
  ghost predicate Window(s: seq<Byte>, lo: nat, hi: nat, i: nat) {
    && lo <= i < hi <= |s|
    && (if i + REACH <= hi then lo == 0 || lo + LOOK_BACK <= i else hi == |s| && lo == Keep(Frontier(|s|)))
  }

  /** In this buffer the occurrence gets the verdict. */
  ghost predicate Judged(p: Pattern, verdict: bool, s: seq<Byte>, lo: nat, hi: nat, i: nat) {
    lo <= i && lo <= hi <= |s| && p.decide(s[lo..hi], i - lo) == verdict
  }

  /** Whatever window it is decided in, the occurrence gets the verdict. */
  ghost predicate Always(p: Pattern, verdict: bool, s: seq<Byte>, i: nat) {
    forall lo: nat, hi: nat :: Window(s, lo, hi, i) ==> Judged(p, verdict, s, lo, hi, i)
  }

  ghost predicate Sole(p: Pattern, s: seq<Byte>, i: nat) {
    OccursAt(p, s, i) && forall n: nat :: OccursAt(p, s, n) ==> n == i
  }

  /** An occurrence that no earlier one overlaps. */
  ghost predicate Clear(p: Pattern, s: seq<Byte>, i: nat) {
    OccursAt(p, s, i) && forall n: nat :: !Overlap(p, s, n, i)
  }

  // ---- One feed ----

  /** If the feed up to `hi`, which decides everything below `to`, decides `i`, it gives
      it the verdict. */
  ghost predicate FeedDecides(p: Pattern, verdict: bool, s: seq<Byte>, fed: nat, hi: nat, to: nat, i: nat) {
    fed <= hi <= |s| && (Frontier(fed) <= i < to ==> Judged(p, verdict, s, Keep(Frontier(fed)), hi, i))
  }

  ghost predicate FeedSilent(p: Pattern, s: seq<Byte>, fed: nat, hi: nat, to: nat) {
    forall n: nat :: OccursAt(p, s, n) ==> FeedDecides(p, false, s, fed, hi, to, n)
  }

  /** The feed of s[fed..hi] to what has been carried of `s`. */
  ghost predicate Feeds(p: Pattern, st: State, s: seq<Byte>, fed: nat, data: seq<Byte>, final: bool) {
    && 1 <= |p.needle| <= REACH && Carries(st, s, fed)
    && fed + |data| <= |s| && s[fed..fed + |data|] == data && (final ==> fed + |data| == |s|)
  }

  function NextFrontier(s: seq<Byte>, hi: nat, final: bool): nat {
    if final then |s| else Frontier(hi)
  }

  /** The scan of the slice s[lo..hi] reports some occurrence from `from` to `to`. */
  predicate Scanned(p: Pattern, s: seq<Byte>, lo: nat, hi: nat, from: nat, to: nat)
    requires lo <= from && lo <= to && lo <= hi <= |s|
  {
    Reports(p, s[lo..hi], from - lo, to - lo, 0)
  }

  /** Only the occurrence itself covers it. */
  lemma CoveredAlone(p: Pattern, s: seq<Byte>, lo: nat, hi: nat, i: nat, n: nat)
    requires lo <= i < hi <= |s| && Clear(p, s, i)
    requires Covers(p, s[lo..hi], n, i - lo)
    ensures lo + n == i
  {
    OccursInSlice(p, s, lo, hi, lo + n);
    assert !Overlap(p, s, lo + n, i);
  }

  lemma ScanFindsIt(p: Pattern, s: seq<Byte>, lo: nat, hi: nat, from: nat, to: nat, i: nat)
    requires 1 <= |p.needle| <= REACH && ScanOf(s, lo, hi, from, to) && from <= i < to
    requires Clear(p, s, i) && Judged(p, true, s, lo, hi, i)
    ensures Scanned(p, s, lo, hi, from, to)
  {
    var buf, context, cutoff, at := s[lo..hi], from - lo, to - lo, i - lo;
    OccursInSlice(p, s, lo, hi, i);
    forall n: nat | Covers(p, buf, n, at)
      ensures n == at
    {
      CoveredAlone(p, s, lo, hi, i, n);
    }
    GreedyCovers(p, buf, context, cutoff, 0, at);
  }

  lemma ScanFindsNothing(p: Pattern, s: seq<Byte>, lo: nat, hi: nat, from: nat, to: nat)
    requires ScanOf(s, lo, hi, from, to)
    requires forall n: nat :: OccursAt(p, s, n) && from <= n < to ==> Judged(p, false, s, lo, hi, n)
    ensures !Scanned(p, s, lo, hi, from, to)
  {
    var buf, context, cutoff := s[lo..hi], from - lo, to - lo;
    if Reports(p, buf, context, cutoff, 0) {
      var at := ReportedAt(p, buf, context, cutoff, 0);
      OccursInSlice(p, s, lo, hi, lo + at);
    }
  }

  lemma OneFeed(p: Pattern, st: State, data: seq<Byte>, final: bool, s: seq<Byte>, lo: nat, hi: nat, from: nat, to: nat)
    requires lo <= from <= to <= hi <= |s|
    requires st.tail + data == s[lo..hi] && st.context == from - lo && Cutoff(hi - lo, final) == to - lo
    ensures FeedState([p], st, data, final).found == st.found + Only(p.rule, Scanned(p, s, lo, hi, from, to))
  {
    FeedReports([p], st, data, final, s[lo..hi], from - lo, to - lo);
    assert [p][1..] == [];
  }

  /** A feed is a scan of one slice, and adds the rule or nothing. */
  lemma FeedAddsRule(p: Pattern, st: State, s: seq<Byte>, fed: nat, data: seq<Byte>, final: bool)
      returns (lo: nat, hi: nat, to: nat)
    requires Feeds(p, st, s, fed, data, final)
    ensures lo == Keep(Frontier(fed)) && hi == fed + |data| && to == NextFrontier(s, hi, final)
    ensures ScanOf(s, lo, hi, Frontier(fed), to)
    ensures FeedState([p], st, data, final).found
      == st.found + Only(p.rule, Scanned(p, s, lo, hi, Frontier(fed), to))
  {
    lo, to := FeedScans(st, s, fed, data, final);
    hi := fed + |data|;
    assert |st.tail + data| == hi - lo;
    OneFeed(p, st, data, final, s, lo, hi, Frontier(fed), to);
  }

  /** A feed that decides an occurrence, which no earlier one overlaps, finds its rule. */
  lemma FeedFindsIt(p: Pattern, st: State, s: seq<Byte>, fed: nat, data: seq<Byte>, final: bool, i: nat)
    requires Feeds(p, st, s, fed, data, final) && Clear(p, s, i)
    requires Frontier(fed) <= i < NextFrontier(s, fed + |data|, final)
    requires Judged(p, true, s, Keep(Frontier(fed)), fed + |data|, i)
    ensures p.rule in FeedState([p], st, data, final).found
  {
    var lo, hi, to := FeedAddsRule(p, st, s, fed, data, final);
    ScanFindsIt(p, s, lo, hi, Frontier(fed), to, i);
  }

  /** A feed that decides every occurrence against the rule finds nothing. */
  lemma FeedFindsNothing(p: Pattern, st: State, s: seq<Byte>, fed: nat, data: seq<Byte>, final: bool)
    requires Feeds(p, st, s, fed, data, final)
    requires FeedSilent(p, s, fed, fed + |data|, NextFrontier(s, fed + |data|, final))
    ensures FeedState([p], st, data, final).found == st.found
  {
    var lo, hi, to := FeedAddsRule(p, st, s, fed, data, final);
    forall n: nat | OccursAt(p, s, n) && Frontier(fed) <= n < to
      ensures Judged(p, false, s, lo, hi, n)
    {
      assert FeedDecides(p, false, s, fed, hi, to, n);
    }
    ScanFindsNothing(p, s, lo, hi, Frontier(fed), to);
  }

  // ---- Whole runs ----

  /** From `fed` bytes on the chunks continue the input. */
  ghost predicate Continues(p: Pattern, st: State, s: seq<Byte>, fed: nat, chunks: seq<seq<Byte>>) {
    1 <= |p.needle| <= REACH && Carries(st, s, fed) && s[fed..] == Flatten(chunks)
  }

  lemma ContinuesOn(p: Pattern, st: State, s: seq<Byte>, fed: nat, chunks: seq<seq<Byte>>)
    requires chunks != [] && Continues(p, st, s, fed, chunks)
    ensures Feeds(p, st, s, fed, chunks[0], false)
    ensures Continues(p, FeedState([p], st, chunks[0], false), s, fed + |chunks[0]|, chunks[1..])
  {
    var data, hi := chunks[0], fed + |chunks[0]|;
    assert s[fed..hi] == s[fed..][..|data|] == data;
    assert s[hi..] == s[fed..][|data|..] == Flatten(chunks[1..]);
    FeedCarries([p], st, s, fed, data);
  }

  /** Along this run, whichever feed decides `i` gives it the verdict. */
  ghost predicate RunDecides(p: Pattern, verdict: bool, s: seq<Byte>, fed: nat, chunks: seq<seq<Byte>>, i: nat)
    decreases |chunks|
  {
    if chunks == [] then FeedDecides(p, verdict, s, fed, |s|, |s|, i)
    else
      && FeedDecides(p, verdict, s, fed, fed + |chunks[0]|, Frontier(fed + |chunks[0]|), i)
      && RunDecides(p, verdict, s, fed + |chunks[0]|, chunks[1..], i)
  }

  /** Along this run, every feed decides every occurrence against the rule. */
  ghost predicate RunSilent(p: Pattern, s: seq<Byte>, fed: nat, chunks: seq<seq<Byte>>)
    decreases |chunks|
  {
    if chunks == [] then FeedSilent(p, s, fed, |s|, |s|)
    else
      && FeedSilent(p, s, fed, fed + |chunks[0]|, Frontier(fed + |chunks[0]|))
      && RunSilent(p, s, fed + |chunks[0]|, chunks[1..])
  }

  /** What the rest of a run leaves found. */
  function Rest(p: Pattern, st: State, chunks: seq<seq<Byte>>): set<string> {
    FeedState([p], FeedAll([p], st, chunks), [], true).found
  }

  lemma {:induction false} RunAddsRule(p: Pattern, st: State, s: seq<Byte>, fed: nat, chunks: seq<seq<Byte>>)
    requires Continues(p, st, s, fed, chunks)
    ensures st.found <= Rest(p, st, chunks) <= st.found + {p.rule}
    decreases |chunks|
  {
    if chunks == [] {
      var _, _, _ := FeedAddsRule(p, st, s, fed, [], true);
    } else {
      ContinuesOn(p, st, s, fed, chunks);
      var _, _, _ := FeedAddsRule(p, st, s, fed, chunks[0], false);
      RunAddsRule(p, FeedState([p], st, chunks[0], false), s, fed + |chunks[0]|, chunks[1..]);
    }
  }

  lemma FoundNow(p: Pattern, st: State, s: seq<Byte>, fed: nat, chunks: seq<seq<Byte>>, i: nat)
    requires Continues(p, st, s, fed, chunks) && Clear(p, s, i) && chunks != []
    requires Frontier(fed) <= i < Frontier(fed + |chunks[0]|)
    requires FeedDecides(p, true, s, fed, fed + |chunks[0]|, Frontier(fed + |chunks[0]|), i)
    ensures p.rule in Rest(p, st, chunks)
  {
    ContinuesOn(p, st, s, fed, chunks);
    FeedFindsIt(p, st, s, fed, chunks[0], false, i);
    RunAddsRule(p, FeedState([p], st, chunks[0], false), s, fed + |chunks[0]|, chunks[1..]);
  }

  /** A run that decides an occurrence, which no earlier one overlaps, finds its rule. */
  lemma {:induction false} RunFindsIt(p: Pattern, st: State, s: seq<Byte>, fed: nat, chunks: seq<seq<Byte>>, i: nat)
    requires Continues(p, st, s, fed, chunks) && Clear(p, s, i)
    requires RunDecides(p, true, s, fed, chunks, i) && Frontier(fed) <= i < |s|
    ensures p.rule in Rest(p, st, chunks)
    decreases |chunks|
  {
    if chunks == [] {
      FeedFindsIt(p, st, s, fed, [], true, i);
    } else if i < Frontier(fed + |chunks[0]|) {
      FoundNow(p, st, s, fed, chunks, i);
    } else {
      ContinuesOn(p, st, s, fed, chunks);
      RunFindsIt(p, FeedState([p], st, chunks[0], false), s, fed + |chunks[0]|, chunks[1..], i);
    }
  }

  /** A run that decides every occurrence against the rule finds nothing. */
  lemma {:induction false} RunFindsNothing(p: Pattern, st: State, s: seq<Byte>, fed: nat, chunks: seq<seq<Byte>>)
    requires Continues(p, st, s, fed, chunks) && RunSilent(p, s, fed, chunks)
    ensures Rest(p, st, chunks) == st.found
    decreases |chunks|
  {
    if chunks == [] {
      FeedFindsNothing(p, st, s, fed, [], true);
    } else {
      ContinuesOn(p, st, s, fed, chunks);
      FeedFindsNothing(p, st, s, fed, chunks[0], false);
      RunFindsNothing(p, FeedState([p], st, chunks[0], false), s, fed + |chunks[0]|, chunks[1..]);
    }
  }

  /** An occurrence that always gets the verdict gets it along every run. */
  lemma {:induction false} AlwaysDecides(p: Pattern, verdict: bool, s: seq<Byte>, fed: nat, chunks: seq<seq<Byte>>,
      i: nat)
    requires i < |s| && fed <= |s| && s[fed..] == Flatten(chunks) && Always(p, verdict, s, i)
    ensures RunDecides(p, verdict, s, fed, chunks, i)
    decreases |chunks|
  {
    var lo := Keep(Frontier(fed));
    if chunks == [] {
      assert Frontier(fed) <= i ==> Window(s, lo, |s|, i);
    } else {
      var data, hi := chunks[0], fed + |chunks[0]|;
      assert s[hi..] == s[fed..][|data|..] == Flatten(chunks[1..]);
      assert Frontier(fed) <= i < Frontier(hi) ==> Window(s, lo, hi, i);
      AlwaysDecides(p, verdict, s, hi, chunks[1..], i);
    }
  }

  /** Where every occurrence is always decided against the rule, every run is silent. */
  lemma {:induction false} AlwaysSilent(p: Pattern, s: seq<Byte>, fed: nat, chunks: seq<seq<Byte>>)
    requires fed <= |s| && s[fed..] == Flatten(chunks) && 1 <= |p.needle|
    requires forall n: nat :: OccursAt(p, s, n) ==> Always(p, false, s, n)
    ensures RunSilent(p, s, fed, chunks)
    decreases |chunks|
  {
    forall n: nat | OccursAt(p, s, n)
      ensures RunDecides(p, false, s, fed, chunks, n)
    {
      AlwaysDecides(p, false, s, fed, chunks, n);
    }
    if chunks != [] {
      assert s[fed + |chunks[0]|..] == s[fed..][|chunks[0]|..] == Flatten(chunks[1..]);
      AlwaysSilent(p, s, fed + |chunks[0]|, chunks[1..]);
    }
  }

  // ---- From the first byte on ----

  lemma FromStart(p: Pattern, s: seq<Byte>, chunks: seq<seq<Byte>>)
    requires 1 <= |p.needle| <= REACH && Flatten(chunks) == s
    ensures Continues(p, START, s, 0, chunks) && Streamed([p], chunks) == Rest(p, START, chunks)
  {
    assert s[0..] == s;
  }

  lemma StreamFindsIt(p: Pattern, s: seq<Byte>, chunks: seq<seq<Byte>>, i: nat)
    requires 1 <= |p.needle| <= REACH && Flatten(chunks) == s
    requires Clear(p, s, i) && RunDecides(p, true, s, 0, chunks, i)
    ensures Streamed([p], chunks) == {p.rule}
  {
    FromStart(p, s, chunks);
    RunFindsIt(p, START, s, 0, chunks, i);
    RunAddsRule(p, START, s, 0, chunks);
  }

  lemma StreamFindsNothing(p: Pattern, s: seq<Byte>, chunks: seq<seq<Byte>>)
    requires 1 <= |p.needle| <= REACH && Flatten(chunks) == s && RunSilent(p, s, 0, chunks)
    ensures Streamed([p], chunks) == {}
  {
    FromStart(p, s, chunks);
    RunFindsNothing(p, START, s, 0, chunks);
  }

  /** One final feed judges every occurrence on the whole input. */
  lemma WholeFindsIt(p: Pattern, s: seq<Byte>, i: nat)
    requires 1 <= |p.needle| <= REACH && Clear(p, s, i) && p.decide(s, i)
    ensures Whole([p], s) == {p.rule}
  {
    assert s[0..|s|] == s;
    FeedFindsIt(p, START, s, 0, s, true, i);
    var _, _, _ := FeedAddsRule(p, START, s, 0, s, true);
  }

  lemma WholeFindsNothing(p: Pattern, s: seq<Byte>)
    requires 1 <= |p.needle| <= REACH && forall n: nat :: OccursAt(p, s, n) ==> !p.decide(s, n)
    ensures Whole([p], s) == {}
  {
    assert s[0..|s|] == s;
    FeedFindsNothing(p, START, s, 0, s, true);
  }

  // ---- A cut for every window ----

  /** A way of cutting `s` that decides index `i` in the buffer s[lo..hi]. */
  function Cuts(s: seq<Byte>, lo: nat, hi: nat, i: nat): seq<seq<Byte>>
    requires lo <= i < hi <= |s| && (i + REACH <= hi ==> lo == 0 || lo + LOOK_BACK <= i)
  {
    if hi < i + REACH then [s]
    else if lo == 0 then [s[..hi], s[hi..]]
    else [s[..lo + LOOK_BACK + HELD_BACK], s[lo + LOOK_BACK + HELD_BACK..hi], s[hi..]]
  }

  lemma CutsFlatten(s: seq<Byte>, lo: nat, hi: nat, i: nat)
    requires Window(s, lo, hi, i)
    ensures Flatten(Cuts(s, lo, hi, i)) == s
  {
    var cuts := Cuts(s, lo, hi, i);
    if hi < i + REACH {
      FlattenOne(s);
    } else if lo == 0 {
      FlattenOne(s[hi..]);
      assert cuts[1..] == [s[hi..]];
    } else {
      FlattenOne(s[hi..]);
      assert cuts[1..][1..] == [s[hi..]];
    }
  }

  lemma CutsDecide(p: Pattern, s: seq<Byte>, lo: nat, hi: nat, i: nat)
    requires Window(s, lo, hi, i)
    ensures RunDecides(p, p.decide(s[lo..hi], i - lo), s, 0, Cuts(s, lo, hi, i), i)
  {
    var verdict, cuts := p.decide(s[lo..hi], i - lo), Cuts(s, lo, hi, i);
    assert RunDecides(p, verdict, s, |s|, [], i);
    if i + REACH <= hi {
      assert [s[hi..]][1..] == [];
      assert RunDecides(p, verdict, s, hi, [s[hi..]], i);
      if lo == 0 {
        assert cuts[1..] == [s[hi..]];
      } else {
        var mid := lo + LOOK_BACK + HELD_BACK;
        assert cuts[1..] == [s[mid..hi], s[hi..]] && cuts[1..][1..] == [s[hi..]];
        assert RunDecides(p, verdict, s, mid, cuts[1..], i);
      }
    }
  }

  // ---- A cut that keeps patterns silent ----

  ghost predicate OccursSome(ps: seq<Pattern>, s: seq<Byte>, i: nat) {
    exists p :: p in ps && OccursAt(p, s, i)
  }

  /** In this buffer all that occurs at `i` is decided against the rule. */
  ghost predicate Quiet(ps: seq<Pattern>, s: seq<Byte>, lo: nat, hi: nat, i: nat) {
    forall p :: p in ps && OccursAt(p, s, i) ==> Judged(p, false, s, lo, hi, i)
  }

  /** A feed up to `hi` decides what occurs at `i` against the rule, and nothing that
      occurs behind it. */
  ghost predicate Silences(ps: seq<Pattern>, s: seq<Byte>, i: nat, hi: nat) {
    && i + REACH <= hi <= |s|
    && (forall n: nat :: OccursSome(ps, s, n) && n > i ==> hi < n + REACH)
    && forall lo: nat :: lo <= i ==> Quiet(ps, s, lo, hi, i)
  }

  /** Each occurrence in front of the last 4096 bytes can be silenced, and those within them
      are silent at the end of the input. */
  ghost predicate Silenceable(ps: seq<Pattern>, s: seq<Byte>) {
    && (forall i: nat :: OccursSome(ps, s, i) && i + REACH <= |s| ==> exists hi: nat :: Silences(ps, s, i, hi))
    && (forall i: nat :: OccursSome(ps, s, i) && Frontier(|s|) <= i ==>
          Quiet(ps, s, Keep(Frontier(|s|)), |s|, i))
  }

  /** With `fed` bytes fed, every occurrence below `i` is behind the frontier or left to
      the end of the input, and no other one is decided yet. */
  ghost predicate Ready(ps: seq<Pattern>, s: seq<Byte>, fed: nat, i: nat) {
    && fed <= |s|
    && (forall n: nat :: OccursSome(ps, s, n) && n < i ==> n < Frontier(fed) || n + REACH > |s|)
    && (forall n: nat :: OccursSome(ps, s, n) && n >= i ==> fed < n + REACH)
  }

  lemma ReadyFeed(ps: seq<Pattern>, s: seq<Byte>, fed: nat, i: nat, hi: nat, p: Pattern)
    requires Ready(ps, s, fed, i) && Silences(ps, s, i, hi) && OccursSome(ps, s, i) && p in ps
    ensures fed <= hi && FeedSilent(p, s, fed, hi, Frontier(hi)) && Ready(ps, s, hi, i + 1)
  {
    assert fed < i + REACH && Keep(Frontier(fed)) <= i;
    assert Quiet(ps, s, Keep(Frontier(fed)), hi, i);
    forall n: nat | OccursAt(p, s, n)
      ensures FeedDecides(p, false, s, fed, hi, Frontier(hi), n)
    {
      assert OccursSome(ps, s, n);
    }
  }

  lemma ReadyEnd(ps: seq<Pattern>, s: seq<Byte>, fed: nat, p: Pattern)
    requires Silenceable(ps, s) && Ready(ps, s, fed, |s|) && p in ps && 1 <= |p.needle|
    ensures RunSilent(p, s, fed, [s[fed..]])
  {
    forall n: nat | OccursAt(p, s, n)
      ensures n < |s| && OccursSome(ps, s, n)
      ensures Frontier(|s|) <= n ==> Judged(p, false, s, Keep(Frontier(|s|)), |s|, n)
    {
      assert OccursSome(ps, s, n);
    }
    assert FeedSilent(p, s, fed, |s|, Frontier(|s|));
    assert FeedSilent(p, s, |s|, |s|, |s|);
    assert [s[fed..]][1..] == [] && RunSilent(p, s, |s|, []);
  }

  lemma SilentJoin(p: Pattern, s: seq<Byte>, fed: nat, hi: nat, rest: seq<seq<Byte>>)
    requires fed <= hi <= |s| && FeedSilent(p, s, fed, hi, Frontier(hi)) && RunSilent(p, s, hi, rest)
    ensures RunSilent(p, s, fed, [s[fed..hi]] + rest)
  {
    var chunks := [s[fed..hi]] + rest;
    assert chunks[0] == s[fed..hi] && chunks[1..] == rest;
  }

  lemma ReadyOn(ps: seq<Pattern>, s: seq<Byte>, fed: nat, i: nat)
    requires Ready(ps, s, fed, i) && (OccursSome(ps, s, i) ==> i + REACH > |s|)
    ensures Ready(ps, s, fed, i + 1)
  {}

  ghost predicate AllSilent(ps: seq<Pattern>, s: seq<Byte>, fed: nat, chunks: seq<seq<Byte>>) {
    forall p :: p in ps ==> RunSilent(p, s, fed, chunks)
  }

  lemma JoinAll(ps: seq<Pattern>, s: seq<Byte>, fed: nat, i: nat, hi: nat, rest: seq<seq<Byte>>)
    requires Ready(ps, s, fed, i) && Silences(ps, s, i, hi) && OccursSome(ps, s, i)
    requires AllSilent(ps, s, hi, rest) && Flatten(rest) == s[hi..]
    ensures fed <= hi && Flatten([s[fed..hi]] + rest) == s[fed..] && AllSilent(ps, s, fed, [s[fed..hi]] + rest)
  {
    forall p | p in ps
      ensures fed <= hi && RunSilent(p, s, fed, [s[fed..hi]] + rest)
    {
      ReadyFeed(ps, s, fed, i, hi, p);
      SilentJoin(p, s, fed, hi, rest);
    }
    var chunks := [s[fed..hi]] + rest;
    assert chunks[0] == s[fed..hi] && chunks[1..] == rest && s[fed..] == s[fed..hi] + s[hi..];
  }

  /** Patterns that can be silenced occurrence by occurrence are silent along one cut. */
  lemma {:induction false} SilentCut(ps: seq<Pattern>, s: seq<Byte>, fed: nat, i: nat) returns (chunks: seq<seq<Byte>>)
    requires (forall p :: p in ps ==> 1 <= |p.needle|) && Silenceable(ps, s) && i <= |s| && Ready(ps, s, fed, i)
    ensures Flatten(chunks) == s[fed..] && AllSilent(ps, s, fed, chunks)
    decreases |s| - i
  {
    if i == |s| {
      chunks := [s[fed..]];
      FlattenOne(s[fed..]);
      forall p | p in ps
        ensures RunSilent(p, s, fed, chunks)
      {
        ReadyEnd(ps, s, fed, p);
      }
    } else if OccursSome(ps, s, i) && i + REACH <= |s| {
      var hi: nat :| Silences(ps, s, i, hi);
      var p :| p in ps && OccursAt(p, s, i);
      ReadyFeed(ps, s, fed, i, hi, p);
      var rest := SilentCut(ps, s, hi, i + 1);
      JoinAll(ps, s, fed, i, hi, rest);
      chunks := [s[fed..hi]] + rest;
    } else {
      ReadyOn(ps, s, fed, i);
      chunks := SilentCut(ps, s, fed, i + 1);
    }
  }

  // ---- What every cut finds ----

  /** The whole input and every window give the occurrence the verdict. */
  ghost predicate Fixed(p: Pattern, verdict: bool, s: seq<Byte>, i: nat) {
    p.decide(s, i) == verdict && Always(p, verdict, s, i)
  }

  /** Some occurrence that no earlier one overlaps is decided for the rule in any case, or
      all of them are decided against it in any case. */
  ghost predicate Decided(p: Pattern, s: seq<Byte>) {
    || (exists i: nat :: Clear(p, s, i) && Fixed(p, true, s, i))
    || (forall i: nat :: OccursAt(p, s, i) ==> Fixed(p, false, s, i))
  }

  lemma FixedFound(p: Pattern, s: seq<Byte>, i: nat)
    requires 1 <= |p.needle| <= REACH && Clear(p, s, i) && Fixed(p, true, s, i)
    ensures Independent(p, s)
  {
    WholeFindsIt(p, s, i);
    forall chunks: seq<seq<Byte>> | Flatten(chunks) == s
      ensures Streamed([p], chunks) == Whole([p], s)
    {
      assert s[0..] == s;
      AlwaysDecides(p, true, s, 0, chunks, i);
      StreamFindsIt(p, s, chunks, i);
    }
  }

  lemma FixedNotFound(p: Pattern, s: seq<Byte>)
    requires 1 <= |p.needle| <= REACH && forall i: nat :: OccursAt(p, s, i) ==> Fixed(p, false, s, i)
    ensures Independent(p, s)
  {
    WholeFindsNothing(p, s);
    forall chunks: seq<seq<Byte>> | Flatten(chunks) == s
      ensures Streamed([p], chunks) == Whole([p], s)
    {
      assert s[0..] == s;
      AlwaysSilent(p, s, 0, chunks);
      StreamFindsNothing(p, s, chunks);
    }
  }

  // ---- One occurrence ----

  lemma {:induction false} SoleSilent(p: Pattern, s: seq<Byte>, fed: nat, chunks: seq<seq<Byte>>, i: nat)
    requires Sole(p, s, i) && RunDecides(p, false, s, fed, chunks, i)
    ensures RunSilent(p, s, fed, chunks)
    decreases |chunks|
  {
    if chunks != [] {
      SoleSilent(p, s, fed + |chunks[0]|, chunks[1..], i);
    }
  }

  /** A run finds the rule exactly when the feed that decides the occurrence says so. */
  lemma SoleFinds(p: Pattern, verdict: bool, s: seq<Byte>, chunks: seq<seq<Byte>>, i: nat)
    requires 1 <= |p.needle| <= REACH && Sole(p, s, i) && Flatten(chunks) == s
    requires RunDecides(p, verdict, s, 0, chunks, i)
    ensures Streamed([p], chunks) == Only(p.rule, verdict)
  {
    if verdict {
      StreamFindsIt(p, s, chunks, i);
    } else {
      SoleSilent(p, s, 0, chunks, i);
      StreamFindsNothing(p, s, chunks);
    }
  }

  lemma SoleWhole(p: Pattern, s: seq<Byte>, i: nat)
    requires 1 <= |p.needle| <= REACH && Sole(p, s, i)
    ensures Whole([p], s) == Only(p.rule, p.decide(s, i))
  {
    if p.decide(s, i) {
      WholeFindsIt(p, s, i);
    } else {
      WholeFindsNothing(p, s);
    }
  }

  /** The only occurrence gets another verdict in some window than on the whole input, and
      the cut for that window shows it. */
  lemma SoleDiffers(p: Pattern, s: seq<Byte>, i: nat)
    requires 1 <= |p.needle| <= REACH && Sole(p, s, i) && !Fixed(p, p.decide(s, i), s, i)
    ensures !Independent(p, s)
  {
    var lo: nat, hi: nat :| Window(s, lo, hi, i) && !Judged(p, p.decide(s, i), s, lo, hi, i);
    SoleWhole(p, s, i);
    CutsFlatten(s, lo, hi, i);
    CutsDecide(p, s, lo, hi, i);
    SoleFinds(p, p.decide(s[lo..hi], i - lo), s, Cuts(s, lo, hi, i), i);
  }

  /** Whatever a pattern decides and however often its needle occurs, a decided input gives
      the same result for every cut; with one occurrence there are no others. */
  lemma ChunkingMatters(p: Pattern, s: seq<Byte>)
    requires 1 <= |p.needle| <= REACH
    ensures Decided(p, s) ==> Independent(p, s)
    ensures (exists i: nat :: Sole(p, s, i)) ==> (Independent(p, s) <==> Decided(p, s))
  {
    if i: nat :| Clear(p, s, i) && Fixed(p, true, s, i) {
      FixedFound(p, s, i);
    } else if forall i: nat :: OccursAt(p, s, i) ==> Fixed(p, false, s, i) {
      FixedNotFound(p, s);
    } else if i: nat :| Sole(p, s, i) {
      assert Clear(p, s, i);
      SoleDiffers(p, s, i);
    }
  }

  // ---- Lists of patterns ----

  lemma OnlyItsRule(q: Pattern, chunks: seq<seq<Byte>>)
    requires 1 <= |q.needle| <= REACH
    ensures Streamed([q], chunks) <= {q.rule} && Whole([q], Flatten(chunks)) <= {q.rule}
  {
    var s := Flatten(chunks);
    FromStart(q, s, chunks);
    RunAddsRule(q, START, s, 0, chunks);
    assert s[0..|s|] == s;
    var _, _, _ := FeedAddsRule(q, START, s, 0, s, true);
  }

  /** A list is independent of the cutting where one of its independent patterns finds the only rule whose
      patterns may depend on the cut. */
  lemma FoundAnyway(patterns: seq<Pattern>, s: seq<Byte>, q: Pattern)
    requires forall p :: p in patterns ==> 1 <= |p.needle| <= REACH && (Independent(p, s) || p.rule == q.rule)
    requires q in patterns && Independent(q, s) && q.rule in Whole([q], s)
    ensures AllIndependent(patterns, s)
  {
    forall chunks: seq<seq<Byte>> | Flatten(chunks) == s
      ensures Streamed(patterns, chunks) == Whole(patterns, s)
    {
      forall rule
        ensures rule in Streamed(patterns, chunks) <==> rule in Whole(patterns, s)
      {
        ListFinds(patterns, chunks, rule);
        if rule != q.rule {
          OtherRules(patterns, s, chunks, q.rule, rule);
        }
      }
    }
  }

  lemma OtherRules(patterns: seq<Pattern>, s: seq<Byte>, chunks: seq<seq<Byte>>, loose: string, rule: string)
    requires forall p :: p in patterns ==> 1 <= |p.needle| <= REACH && (Independent(p, s) || p.rule == loose)
    requires Flatten(chunks) == s && rule != loose
    ensures forall p :: p in patterns ==> (rule in Streamed([p], chunks) <==> rule in Whole([p], s))
  {
    forall p | p in patterns
      ensures rule in Streamed([p], chunks) <==> rule in Whole([p], s)
    {
      OnlyItsRule(p, chunks);
    }
  }

  /** It is not where the independent patterns do not find a rule that one cut finds and
      another, silent for all the others, does not. */
  lemma FoundBySome(patterns: seq<Pattern>, loose: seq<Pattern>, s: seq<Byte>, p: Pattern, found: seq<seq<Byte>>,
      silent: seq<seq<Byte>>)
    requires Flatten(found) == s && Flatten(silent) == s && p in patterns && p.rule in Streamed([p], found)
    requires forall q :: q in loose ==> 1 <= |q.needle| <= REACH && RunSilent(q, s, 0, silent)
    requires forall q :: q in patterns ==> q in loose || (Independent(q, s) && p.rule !in Whole([q], s))
    ensures !AllIndependent(patterns, s)
  {
    forall q | q in patterns
      ensures p.rule !in Streamed([q], silent)
    {
      if q in loose {
        StreamFindsNothing(q, s, silent);
      }
    }
    ListFinds(patterns, found, p.rule);
    ListFinds(patterns, silent, p.rule);
  }
}
