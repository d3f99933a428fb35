/** All patterns that one feed scans for: every needle of every rule, and the two home
    roots, in every encoding of the policy. */
module ScannerPolicy {
  import opened Prelude
  import opened Bytes
  import opened Matcher
  import opened ScannerRules
  import opened Cutting
  import opened WideHomes
  import opened ScannerHost
  import opened ApprovedSpans

  datatype Rule = Rule(name: string, needles: seq<seq<CodePoint>>)

  datatype Policy = Policy(rules: seq<Rule>, insensitive: set<string>, exceptions: seq<Exception>)

  const USERS: seq<Byte> := [85, 115, 101, 114, 115]
  const HOME: seq<Byte> := [104, 111, 109, 101]

  // ---- The patterns ----

  function NeedlePattern(h: Host, p: Policy, e: Encoding, rule: string, needle: seq<CodePoint>): Pattern {
    var encoded, folded := h.encode(e, needle), rule in p.insensitive;
    if rule == "private-checkout" then PrivateCheckout(Decoding(h, e), Unit(e), h.alnum, encoded, folded)
    else if rule == "operator-namespace" then OperatorNamespace(h, e, p.exceptions, encoded, folded)
    else Undecided(rule, encoded, folded)
  }

  function NeedlePatterns(h: Host, p: Policy, e: Encoding, rule: string, needles: seq<seq<CodePoint>>): seq<Pattern> {
    if needles == [] then []
    else [NeedlePattern(h, p, e, rule, needles[0])] + NeedlePatterns(h, p, e, rule, needles[1..])
  }

  function RulePatterns(h: Host, p: Policy, e: Encoding, rules: seq<Rule>): seq<Pattern> {
    if rules == [] then []
    else NeedlePatterns(h, p, e, rules[0].name, rules[0].needles) + RulePatterns(h, p, e, rules[1..])
  }

  function RootText(name: seq<Byte>): seq<Byte> {
    [SLASH] + name + [SLASH]
  }

  function HomePattern(h: Host, e: Encoding, name: seq<Byte>): Pattern {
    HomeRoot(Decoding(h, e), Unit(e), h.encode(e, RootText(name)))
  }

  function EncodingPatterns(h: Host, p: Policy, e: Encoding): seq<Pattern> {
    RulePatterns(h, p, e, p.rules) + [HomePattern(h, e, USERS), HomePattern(h, e, HOME)]
  }

  /** In the order of the loops of `feed`. */
  function AllPatterns(h: Host, p: Policy): seq<Pattern> {
    EncodingPatterns(h, p, EncUtf8) + EncodingPatterns(h, p, EncUtf16Le) + EncodingPatterns(h, p, EncUtf16Be)
  }

  // ---- What the policy has to meet ----

  /** Printable ASCII whose first character comes only once. */
  predicate StartsOnce(text: seq<CodePoint>) {
    && text != []
    && (forall k :: 0 <= k < |text| ==> 0 < text[k] < 128)
    && forall k :: 0 < k < |text| ==> text[k] != text[0]
  }

  predicate Decides(rule: string) {
    rule == "private-checkout" || rule == "operator-namespace"
  }

  const MAX_NEEDLE: nat := 1000

  predicate SoundNeedle(p: Policy, rule: string, needle: seq<CodePoint>) {
    1 <= |needle| <= MAX_NEEDLE && (Decides(rule) ==> rule !in p.insensitive && StartsOnce(needle))
  }

  /** Short needles and exceptions; the rules with a decision are case-sensitive, and the
      first character of their needles comes once. */
  predicate SoundPolicy(p: Policy) {
    && (forall rule, needle :: rule in p.rules && needle in rule.needles ==> SoundNeedle(p, rule.name, needle))
    && ShortExceptions(p.exceptions)
  }

  // ---- Every needle fits the window ----

  /** Text whose first character comes once does not overlap itself, in any encoding. */
  lemma EncodedBorderFree(h: Host, e: Encoding, needle: seq<Byte>, q: Pattern)
    requires SoundHost(h) && StartsOnce(needle) && !q.folded && q.needle == h.encode(e, needle)
    ensures BorderFree(q)
  {
    assert Ascii(needle) && q.needle == Plain(e, needle);
    forall d: nat
      ensures !Border(q, d)
    {
      if 0 < d < |q.needle| && e.EncUtf8? {
        assert !Same(q, q.needle[d], q.needle[d - d]);
      } else if 0 < d < |q.needle| {
        WideBorderFree(e.EncUtf16Be?, needle, q, d);
      }
    }
  }

  lemma WideBorderFree(big: bool, needle: seq<Byte>, q: Pattern, d: nat)
    requires StartsOnce(needle) && !q.folded && q.needle == Wide(big, needle) && 0 < d < |q.needle|
    ensures !Border(q, d)
  {
    WideAt(big, needle, 0);
    WideAt(big, needle, d / 2);
    if d % 2 == 0 && big {
      assert !Same(q, q.needle[d + 1], q.needle[d + 1 - d]);
    } else {
      assert !Same(q, q.needle[d], q.needle[d - d]);
    }
  }

  lemma NeedleTame(h: Host, p: Policy, e: Encoding, rule: string, needle: seq<CodePoint>, s: seq<Byte>)
    requires SoundHost(h) && SoundNeedle(p, rule, needle) && ShortExceptions(p.exceptions)
    ensures Tame(NeedlePattern(h, p, e, rule, needle), s)
  {
    var q, encoded := NeedlePattern(h, p, e, rule, needle), h.encode(e, needle);
    assert |encoded| + Unit(e) <= REACH;
    if Decides(rule) {
      EncodedBorderFree(h, e, needle, q);
    }
    if rule == "private-checkout" {
      PrivateCheckoutTame(Decoding(h, e), Unit(e), h.alnum, encoded, false, s);
    } else if rule == "operator-namespace" {
      OperatorNamespaceTame(h, e, p.exceptions, encoded, false, s);
    } else {
      UndecidedTame(rule, encoded, rule in p.insensitive, s);
    }
  }

  lemma {:induction false} NeedlesTame(h: Host, p: Policy, e: Encoding, rule: string, needles: seq<seq<CodePoint>>,
      s: seq<Byte>)
    requires SoundHost(h) && ShortExceptions(p.exceptions)
    requires forall needle :: needle in needles ==> SoundNeedle(p, rule, needle)
    ensures AllTame(NeedlePatterns(h, p, e, rule, needles), s)
  {
    if needles != [] {
      assert needles[0] in needles && forall needle :: needle in needles[1..] ==> needle in needles;
      NeedleTame(h, p, e, rule, needles[0], s);
      NeedlesTame(h, p, e, rule, needles[1..], s);
    }
  }

  lemma {:induction false} RulesTame(h: Host, p: Policy, e: Encoding, rules: seq<Rule>, s: seq<Byte>)
    requires SoundHost(h) && ShortExceptions(p.exceptions)
    requires forall rule, needle :: rule in rules && needle in rule.needles ==> SoundNeedle(p, rule.name, needle)
    ensures AllTame(RulePatterns(h, p, e, rules), s)
  {
    if rules != [] {
      assert rules[0] in rules && forall rule :: rule in rules[1..] ==> rule in rules;
      NeedlesTame(h, p, e, rules[0].name, rules[0].needles, s);
      RulesTame(h, p, e, rules[1..], s);
    }
  }

  // ---- The home roots ----

  lemma RootNames(name: seq<Byte>)
    requires name == USERS || name == HOME
    ensures IsRoot(RootText(name), name) && Ascii(RootText(name)) && |RootText(name)| <= 7
  {}

  lemma HomeEncoded(h: Host, e: Encoding, name: seq<Byte>)
    requires SoundHost(h) && (name == USERS || name == HOME)
    ensures h.encode(e, RootText(name)) == Plain(e, RootText(name))
  {
    RootNames(name);
  }

  /** In UTF-8 a root fits the window. */
  lemma NarrowHome(h: Host, name: seq<Byte>, s: seq<Byte>)
    requires SoundHost(h) && (name == USERS || name == HOME)
    ensures Tame(HomePattern(h, EncUtf8, name), s)
  {
    RootNames(name);
    HomeEncoded(h, EncUtf8, name);
    HomeTame(h.decodeUtf8, RootText(name), name, s);
  }

  function WideRoot(big: bool, name: seq<Byte>): seq<Byte> {
    Wide(big, RootText(name))
  }

  function WideEncoding(big: bool): Encoding {
    if big then EncUtf16Be else EncUtf16Le
  }

  /** In UTF-16 it does not: it depends on the input, exactly when that is not settled. */
  lemma WideHomeIff(h: Host, big: bool, name: seq<Byte>, s: seq<Byte>)
    requires SoundHost(h) && (name == USERS || name == HOME)
    ensures Neat(HomePattern(h, WideEncoding(big), name), s)
    ensures Independent(HomePattern(h, WideEncoding(big), name), s) <==> Settled(big, WideRoot(big, name), s)
  {
    RootNames(name);
    HomeEncoded(h, WideEncoding(big), name);
    HomeCuttingIff(big, WideRoot(big, name), name, s);
    WideEarlierWins(big, WideRoot(big, name), name, s);
  }

  // ---- The whole list ----

  function WideRootHome(big: bool, name: seq<Byte>): Pattern {
    WideHome(big, WideRoot(big, name))
  }

  /** A UTF-16 home root that is not settled on this input. */
  ghost predicate Loose(big: bool, name: seq<Byte>, s: seq<Byte>) {
    (name == USERS || name == HOME) && !Settled(big, WideRoot(big, name), s)
  }

  ghost predicate IsLoose(big: bool, name: seq<Byte>, q: Pattern, s: seq<Byte>) {
    Loose(big, name, s) && q == WideRootHome(big, name)
  }

  ghost predicate LooseHome(q: Pattern, s: seq<Byte>) {
    exists big: bool, name: seq<Byte> :: IsLoose(big, name, q, s)
  }

  ghost predicate NothingLoose(s: seq<Byte>) {
    forall q :: !LooseHome(q, s)
  }

  /** Every pattern fits its window or is a UTF-16 home root, so it is independent of the
      cutting unless it is loose. */
  lemma EncodingNeat(h: Host, p: Policy, e: Encoding, s: seq<Byte>)
    requires SoundHost(h) && SoundPolicy(p)
    ensures AllNeat(EncodingPatterns(h, p, e), s)
    ensures forall q :: q in EncodingPatterns(h, p, e) ==> LooseHome(q, s) || Independent(q, s)
  {
    RulesTame(h, p, e, p.rules, s);
    forall q | q in EncodingPatterns(h, p, e)
      ensures Neat(q, s) && (LooseHome(q, s) || Independent(q, s))
    {
      if q in RulePatterns(h, p, e, p.rules) {
        TameIndependent(q, s);
      } else {
        var name := if q == HomePattern(h, e, USERS) then USERS else HOME;
        HomeNeat(h, e, name, s);
      }
    }
  }

  lemma HomeNeat(h: Host, e: Encoding, name: seq<Byte>, s: seq<Byte>)
    requires SoundHost(h) && (name == USERS || name == HOME)
    ensures Neat(HomePattern(h, e, name), s)
    ensures LooseHome(HomePattern(h, e, name), s) || Independent(HomePattern(h, e, name), s)
  {
    if e.EncUtf8? {
      NarrowHome(h, name, s);
      TameIndependent(HomePattern(h, e, name), s);
    } else {
      WideHomeIff(h, e.EncUtf16Be?, name, s);
      WideIs(h, e.EncUtf16Be?, name);
      assert IsLoose(e.EncUtf16Be?, name, HomePattern(h, e, name), s)
        || Settled(e.EncUtf16Be?, WideRoot(e.EncUtf16Be?, name), s);
    }
  }

  lemma WideIs(h: Host, big: bool, name: seq<Byte>)
    requires SoundHost(h) && (name == USERS || name == HOME)
    ensures HomePattern(h, WideEncoding(big), name) == WideRootHome(big, name)
  {
    HomeEncoded(h, WideEncoding(big), name);
  }

  lemma PolicyNeat(h: Host, p: Policy, s: seq<Byte>)
    requires SoundHost(h) && SoundPolicy(p)
    ensures AllNeat(AllPatterns(h, p), s)
    ensures forall q :: q in AllPatterns(h, p) ==> LooseHome(q, s) || Independent(q, s)
  {
    EncodingNeat(h, p, EncUtf8, s);
    EncodingNeat(h, p, EncUtf16Le, s);
    EncodingNeat(h, p, EncUtf16Be, s);
  }

  /** The list that every feed scans finds, in one final feed, exactly the rules with a
      decided occurrence. */
  lemma PolicyWhole(h: Host, p: Policy, s: seq<Byte>)
    requires SoundHost(h) && SoundPolicy(p)
    ensures Whole(AllPatterns(h, p), s) == RulesBelow(AllPatterns(h, p), s, |s|)
  {
    PolicyNeat(h, p, s);
    WholeFinds(AllPatterns(h, p), s);
  }

  const BUILDER_HOME := "builder-home"

  /** A pattern that is not loose finds a builder home. */
  ghost predicate HomeAnyway(h: Host, p: Policy, s: seq<Byte>) {
    exists q :: q in AllPatterns(h, p) && Tells(q, s)
  }

  ghost predicate Tells(q: Pattern, s: seq<Byte>) {
    q.rule == BUILDER_HOME && !LooseHome(q, s) && HitBelow(q, s, |s|)
  }

  /** Loose roots of opposite byte orders share no byte of the input. */
  ghost predicate LooseApart(s: seq<Byte>) {
    forall a: bool, m: seq<Byte>, b: bool, n: seq<Byte>, i: nat, j: nat ::
      a != b && Loose(a, m, s) && Loose(b, n, s) ==> !Meet(WideRootHome(a, m), WideRootHome(b, n), s, i, j)
  }

  lemma TellsIff(h: Host, p: Policy, q: Pattern, s: seq<Byte>)
    requires SoundHost(h) && SoundPolicy(p) && q in AllPatterns(h, p)
    ensures Tells(q, s) <==> !LooseHome(q, s) && q.rule == BUILDER_HOME && BUILDER_HOME in Whole([q], s)
  {
    PolicyNeat(h, p, s);
    WholeFinds([q], s);
    assert [q][1..] == [];
  }

  /** It finds the same however the input is cut wherever the UTF-16 home roots are all
      settled, and wherever some other pattern finds a builder home. */
  lemma PolicyCutting(h: Host, p: Policy, s: seq<Byte>)
    requires SoundHost(h) && SoundPolicy(p) && (NothingLoose(s) || HomeAnyway(h, p, s))
    ensures AllIndependent(AllPatterns(h, p), s)
  {
    PolicyNeat(h, p, s);
    if NothingLoose(s) {
      ListIndependent(AllPatterns(h, p), s);
    } else {
      var q :| q in AllPatterns(h, p) && Tells(q, s);
      TellsIff(h, p, q, s);
      FoundAnyway(AllPatterns(h, p), s, q);
    }
  }

  lemma FourRoots(q: Pattern, s: seq<Byte>)
    ensures LooseHome(q, s) <==>
      || IsLoose(false, USERS, q, s) || IsLoose(false, HOME, q, s)
      || IsLoose(true, USERS, q, s) || IsLoose(true, HOME, q, s)
  {}

  ghost function WithLoose(ps: seq<Pattern>, big: bool, name: seq<Byte>, s: seq<Byte>): (more: seq<Pattern>)
    ensures forall q :: q in more <==> q in ps || IsLoose(big, name, q, s)
  {
    if Loose(big, name, s) then ps + [WideRootHome(big, name)] else ps
  }

  /** The loose patterns are a list. */
  lemma LooseList(s: seq<Byte>) returns (ps: seq<Pattern>)
    ensures forall q :: q in ps <==> LooseHome(q, s)
  {
    var users := WithLoose(WithLoose([], false, USERS, s), true, USERS, s);
    ps := WithLoose(WithLoose(users, false, HOME, s), true, HOME, s);
    forall q
      ensures q in ps <==> LooseHome(q, s)
    {
      FourRoots(q, s);
    }
  }

  /** A loose root is never sure. */
  lemma LooseUnsure(big: bool, name: seq<Byte>, s: seq<Byte>)
    requires Loose(big, name, s)
    ensures Unsure(WideRootHome(big, name), s, big, WideRoot(big, name), name)
  {
    RootNames(name);
  }

  /** Two roots of one byte order do not begin at one place. */
  lemma OneRoot(big: bool, m: seq<Byte>, n: seq<Byte>, s: seq<Byte>, i: nat)
    requires (m == USERS || m == HOME) && (n == USERS || n == HOME)
    requires OccursAt(WideRootHome(big, m), s, i) && OccursAt(WideRootHome(big, n), s, i)
    ensures m == n
  {
    var p, q, k := WideRootHome(big, m), WideRootHome(big, n), if big then 3 else 2;
    WideAt(big, RootText(m), 1);
    WideAt(big, RootText(n), 1);
    assert Same(p, s[i + k], p.needle[k]) && Same(q, s[i + k], q.needle[k]);
  }

  lemma OneOrder(big: bool, m: seq<Byte>, n: seq<Byte>, s: seq<Byte>, i: nat, j: nat)
    requires Loose(big, m, s) && Loose(big, n, s) && Meet(WideRootHome(big, m), WideRootHome(big, n), s, i, j)
    ensures m == n && i == j
  {
    LooseUnsure(big, m, s);
    LooseUnsure(big, n, s);
    NotMeeting(big, WideRoot(big, m), m, WideRoot(big, n), n, s, i, j);
    OneRoot(big, m, n, s, i);
  }

  lemma LooseMeet(p: Pattern, q: Pattern, s: seq<Byte>, i: nat, j: nat)
    requires LooseApart(s) && LooseHome(p, s) && LooseHome(q, s) && Meet(p, q, s, i, j)
    ensures p == q && i == j
  {
    var a: bool, m: seq<Byte> :| IsLoose(a, m, p, s);
    var b: bool, n: seq<Byte> :| IsLoose(b, n, q, s);
    assert Meet(WideRootHome(a, m), WideRootHome(b, n), s, i, j);
    OneOrder(a, m, n, s, i, j);
  }

  /** The loose roots are silent along one cut. */
  lemma LooseCut(ps: seq<Pattern>, s: seq<Byte>) returns (chunks: seq<seq<Byte>>)
    requires LooseApart(s) && forall q :: q in ps ==> LooseHome(q, s)
    ensures Flatten(chunks) == s && AllSilent(ps, s, 0, chunks)
  {
    forall q | q in ps
      ensures exists big: bool, root: seq<Byte>, name: seq<Byte> :: Unsure(q, s, big, root, name)
    {
      var big: bool, name: seq<Byte> :| IsLoose(big, name, q, s);
      LooseUnsure(big, name, s);
    }
    forall p, q, i: nat, n: nat | p in ps && q in ps && Meet(p, q, s, i, n)
      ensures p == q && i == n
    {
      LooseMeet(p, q, s, i, n);
    }
    chunks := UnsureCut(ps, s);
  }

  lemma LooseFits(q: Pattern, s: seq<Byte>)
    requires LooseHome(q, s)
    ensures 1 <= |q.needle| <= REACH
  {
    var big: bool, name: seq<Byte> :| IsLoose(big, name, q, s);
    LooseUnsure(big, name, s);
  }

  /** Some cut lets a loose root find a builder home. */
  lemma LooseFound(big: bool, name: seq<Byte>, s: seq<Byte>) returns (chunks: seq<seq<Byte>>)
    requires Loose(big, name, s)
    ensures Flatten(chunks) == s && Streamed([WideRootHome(big, name)], chunks) == {BUILDER_HOME}
  {
    RootNames(name);
    chunks := LooseFindingCut(big, WideRoot(big, name), name, s);
  }

  lemma WideListed(h: Host, p: Policy, big: bool, name: seq<Byte>)
    requires SoundHost(h) && (name == USERS || name == HOME)
    ensures WideRootHome(big, name) in AllPatterns(h, p)
  {
    WideIs(h, big, name);
    assert HomePattern(h, WideEncoding(big), name) in EncodingPatterns(h, p, WideEncoding(big));
  }

  /** What is not loose and does not tell never finds a builder home. */
  lemma NotTelling(h: Host, p: Policy, q: Pattern, s: seq<Byte>)
    requires SoundHost(h) && SoundPolicy(p) && !HomeAnyway(h, p, s) && q in AllPatterns(h, p) && !LooseHome(q, s)
    ensures Independent(q, s) && BUILDER_HOME !in Whole([q], s)
  {
    PolicyNeat(h, p, s);
    TellsIff(h, p, q, s);
    WholeOnly(q, s);
  }

  lemma LooseDiffers(h: Host, p: Policy, big: bool, name: seq<Byte>, s: seq<Byte>)
    requires SoundHost(h) && SoundPolicy(p) && LooseApart(s) && Loose(big, name, s) && !HomeAnyway(h, p, s)
    ensures !AllIndependent(AllPatterns(h, p), s)
  {
    var loose := LooseList(s);
    var found := LooseFound(big, name, s);
    var silent := LooseCut(loose, s);
    WideListed(h, p, big, name);
    forall q | q in loose
      ensures 1 <= |q.needle| <= REACH
    {
      LooseFits(q, s);
    }
    forall q | q in AllPatterns(h, p)
      ensures q in loose || (Independent(q, s) && BUILDER_HOME !in Whole([q], s))
    {
      if !LooseHome(q, s) {
        NotTelling(h, p, q, s);
      }
    }
    FoundBySome(AllPatterns(h, p), loose, s, WideRootHome(big, name), found, silent);
  }

  lemma WholeOnly(q: Pattern, s: seq<Byte>)
    requires Neat(q, s)
    ensures Whole([q], s) <= {q.rule}
  {
    FlattenOne(s);
    OnlyItsRule(q, [s]);
  }

  /** Where loose roots of opposite byte orders share no byte, it finds the same for every cut exactly when
      nothing is loose or another pattern finds a builder home. */
  lemma PolicyCuttingIff(h: Host, p: Policy, s: seq<Byte>)
    requires SoundHost(h) && SoundPolicy(p) && LooseApart(s)
    ensures AllIndependent(AllPatterns(h, p), s) <==> NothingLoose(s) || HomeAnyway(h, p, s)
  {
    if NothingLoose(s) || HomeAnyway(h, p, s) {
      PolicyCutting(h, p, s);
    } else {
      var q :| LooseHome(q, s);
      var big: bool, name: seq<Byte> :| IsLoose(big, name, q, s);
      LooseDiffers(h, p, big, name, s);
    }
  }

  /** Nothing is loose where each occurrence of a UTF-16 home root shows where its account
      ends, or more of it than the runner's name, within 4097 bytes. */
  lemma PolicyCuttingEnough(h: Host, p: Policy, s: seq<Byte>)
    requires SoundHost(h) && SoundPolicy(p)
    requires forall big: bool, name: seq<Byte>, i: nat ::
      (name == USERS || name == HOME) && OccursAt(WideRootHome(big, name), s, i) ==>
        EnoughAt(big, WideRoot(big, name), s, i)
    ensures NothingLoose(s) && AllIndependent(AllPatterns(h, p), s)
  {
    forall big: bool, name: seq<Byte> | name == USERS || name == HOME
      ensures Settled(big, WideRoot(big, name), s)
    {
      EnoughSettles(big, WideRoot(big, name), s);
    }
    PolicyCutting(h, p, s);
  }
}
