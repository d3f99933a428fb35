/** The decisions that the scanner's rules take about an occurrence, and why they fit the
    matcher's window: all but those on the UTF-16 home roots and the approved spans. */
module ScannerRules {
  import opened Prelude
  import opened Bytes
  import opened Matcher

  type CodePoint = nat

  /** bytes.decode(encoding, errors="ignore"). */
  type Decoder = seq<Byte> -> seq<CodePoint>

  function Clip(buf: seq<Byte>, from: nat, length: nat): seq<Byte>
    requires from <= |buf|
  {
    if from + length <= |buf| then buf[from..from + length] else buf[from..]
  }

  lemma ClipAhead(s: seq<Byte>, lo: nat, hi: nat, from: nat, length: nat)
    requires lo <= from <= hi <= |s| && (hi == |s| || from + length <= hi)
    ensures Clip(s[lo..hi], from - lo, length) == Clip(s, from, length)
  {
    var to := if from + length <= |s| then from + length else |s|;
    SliceOfSlice(s, lo, hi, from, to);
    assert Clip(s, from, length) == s[from..to];
  }

  // ---- Home roots ----

  const RUNNER: seq<CodePoint> := [114, 117, 110, 110, 101, 114]
  const ACCOUNT_UNITS: nat := 2048
  const SLASH: nat := 47

  /** The characters outside the account class: a slash, whitespace, a control
      character, a quote, an angle bracket, a colon or a semicolon. */
  predicate Stops(c: CodePoint) {
    || c <= 32 || c in {SLASH, 34, 39, 60, 62, 58, 59}
    || c in {0x85, 0xa0, 0x1680, 0x2028, 0x2029, 0x202f, 0x205f, 0x3000} || 0x2000 <= c <= 0x200a
  }

  function Account(text: seq<CodePoint>): (account: seq<CodePoint>)
    ensures account <= text && forall c :: c in account ==> !Stops(c)
    ensures account == text || Stops(text[|account|])
  {
    if text == [] || Stops(text[0]) then [] else [text[0]] + Account(text[1..])
  }

  lemma {:induction false} AccountIs(name: seq<CodePoint>, stop: CodePoint, rest: seq<CodePoint>)
    requires (forall c :: c in name ==> !Stops(c)) && Stops(stop)
    ensures Account(name + [stop] + rest) == name
    decreases |name|
  {
    var text := name + [stop] + rest;
    if name != [] {
      assert text[1..] == name[1..] + [stop] + rest;
      AccountIs(name[1..], stop, rest);
    }
  }

  /** A home path names a builder unless its account is empty or the runner's. */
  predicate NamesBuilder(text: seq<CodePoint>) {
    Account(text) != [] && Account(text) != RUNNER
  }

  function HomeRoot(decode: Decoder, unit: nat, root: seq<Byte>): Pattern {
    Pattern("builder-home", root, false,
      (buf: seq<Byte>, i: nat) =>
        i + |root| <= |buf| && NamesBuilder(decode(Clip(buf, i + |root|, ACCOUNT_UNITS * unit))))
  }

  /** The decision on a home root sees its needle and 2048 units behind it. */
  lemma HomeLocal(decode: Decoder, unit: nat, root: seq<Byte>, s: seq<Byte>)
    requires |root| + ACCOUNT_UNITS * unit <= REACH
    ensures Local(HomeRoot(decode, unit, root), s)
  {
    var p := HomeRoot(decode, unit, root);
    forall lo: nat, hi: nat, i: nat | InView(p, s, lo, hi, i)
      ensures SameVerdict(p, s, lo, hi, i)
    {
      if i + |root| <= hi {
        ClipAhead(s, lo, hi, i + |root|, ACCOUNT_UNITS * unit);
      }
    }
    assert forall lo: nat, hi: nat :: Agrees(p, s, lo, hi);
  }

  /** ASCII bytes decode to themselves, whatever follows. */
  ghost predicate AsciiTransparent(decode: Decoder) {
    forall a: seq<Byte>, r: seq<Byte> :: (forall b :: b in a ==> b < 128) ==> decode(a + r) == a + decode(r)
  }

  /** Two slashes around a name that could itself be an account. */
  ghost predicate IsRoot(root: seq<Byte>, name: seq<Byte>) {
    && root == [SLASH] + name + [SLASH] && name != [] && name != RUNNER
    && forall b :: b in name ==> b < 128 && !Stops(b)
  }

  /** One root right behind another: the earlier one's account is the root's own name. */
  lemma HomeEarlierWins(decode: Decoder, root: seq<Byte>, name: seq<Byte>, s: seq<Byte>)
    requires AsciiTransparent(decode) && IsRoot(root, name) && |root| <= ACCOUNT_UNITS
    ensures EarlierWins(HomeRoot(decode, 1, root), s)
  {
    var p := HomeRoot(decode, 1, root);
    forall i: nat, j: nat | Overlap(p, s, i, j) && p.decide(s, j)
      ensures p.decide(s, i)
    {
      RootsAbut(p, s, i, j, name);
      NameFollows(p, s, j, name);
      var text := Clip(s, i + |root|, ACCOUNT_UNITS);
      assert text[..|name| + 1] == s[j + 1..j + 2 + |name|];
      NameFirst(text, name, decode);
    }
  }

  lemma NameFirst(text: seq<Byte>, name: seq<Byte>, decode: Decoder)
    requires AsciiTransparent(decode) && IsRoot([SLASH] + name + [SLASH], name)
    requires |name| < |text| && text[..|name| + 1] == name + [SLASH]
    ensures Account(decode(text)) == name
  {
    var rest := text[|name| + 1..];
    assert text == (name + [SLASH]) + rest;
    assert decode(text) == name + [SLASH] + decode(rest);
    AccountIs(name, SLASH, decode(rest));
  }

  lemma RootsAbut(p: Pattern, s: seq<Byte>, i: nat, j: nat, name: seq<Byte>)
    requires !p.folded && IsRoot(p.needle, name) && Overlap(p, s, i, j)
    ensures j == i + |p.needle| - 1
  {
    assert Same(p, s[i + (j - i)], p.needle[j - i]) && Same(p, s[j + 0], p.needle[0]);
    assert p.needle[j - i] == SLASH;
    assert forall k :: 1 <= k <= |name| ==> p.needle[k] == name[k - 1] && name[k - 1] in name;
  }

  lemma NameFollows(p: Pattern, s: seq<Byte>, j: nat, name: seq<Byte>)
    requires !p.folded && IsRoot(p.needle, name) && OccursAt(p, s, j)
    ensures s[j + 1..j + 2 + |name|] == name + [SLASH]
  {
    forall k | 0 <= k < |name| + 1
      ensures s[j + 1 + k] == (name + [SLASH])[k]
    {
      assert Same(p, s[j + (k + 1)], p.needle[k + 1]);
    }
  }

  /** In a one-byte encoding both roots are within the matcher's window. */
  lemma HomeTame(decode: Decoder, root: seq<Byte>, name: seq<Byte>, s: seq<Byte>)
    requires AsciiTransparent(decode) && IsRoot(root, name) && |root| <= ACCOUNT_UNITS
    ensures Tame(HomeRoot(decode, 1, root), s)
  {
    HomeLocal(decode, 1, root, s);
    HomeEarlierWins(decode, root, name, s);
  }

  // ---- Private checkouts ----

  /** The needle shifted by `d` agrees with itself. */
  ghost predicate Border(p: Pattern, d: nat) {
    0 < d < |p.needle| && forall k :: d <= k < |p.needle| ==> Same(p, p.needle[k], p.needle[k - d])
  }

  /** A needle that no occurrence of itself can overlap. */
  ghost predicate BorderFree(p: Pattern) {
    forall d: nat :: !Border(p, d)
  }

  lemma OverlapIsBorder(p: Pattern, s: seq<Byte>, i: nat, j: nat)
    requires Overlap(p, s, i, j)
    ensures Border(p, j - i)
  {
    var d := j - i;
    forall k | d <= k < |p.needle|
      ensures Same(p, p.needle[k], p.needle[k - d])
    {
      assert Same(p, s[i + k], p.needle[k]) && Same(p, s[j + (k - d)], p.needle[k - d]);
    }
  }

  lemma BorderFreeWins(p: Pattern, s: seq<Byte>)
    requires BorderFree(p)
    ensures EarlierWins(p, s)
  {
    forall i: nat, j: nat | Overlap(p, s, i, j)
      ensures false
    {
      OverlapIsBorder(p, s, i, j);
    }
  }

  /** The characters around the needle do not continue it into a longer word. */
  predicate StandsAlone(alnum: seq<CodePoint> -> bool, before: seq<CodePoint>, after: seq<CodePoint>) {
    !(after != [] && (alnum(after) || after in [[46], [95], [45]])) && !(before != [] && alnum(before))
  }

  /** Up to `unit` bytes before `i`. */
  function Behind(buf: seq<Byte>, i: nat, unit: nat): seq<Byte>
    requires i <= |buf|
  {
    buf[(if i < unit then 0 else i - unit)..i]
  }

  lemma ClipBehind(s: seq<Byte>, lo: nat, hi: nat, i: nat, unit: nat)
    requires lo <= i <= hi <= |s| && (lo == 0 || lo + unit <= i)
    ensures Behind(s[lo..hi], i - lo, unit) == Behind(s, i, unit)
  {
    SliceOfSlice(s, lo, hi, if i < unit then 0 else i - unit, i);
  }

  function PrivateCheckout(decode: Decoder, unit: nat, alnum: seq<CodePoint> -> bool, needle: seq<Byte>, folded: bool)
    : Pattern
  {
    Pattern("private-checkout", needle, folded,
      (buf: seq<Byte>, i: nat) =>
        i + |needle| <= |buf|
        && StandsAlone(alnum, decode(Behind(buf, i, unit)), decode(Clip(buf, i + |needle|, unit))))
  }

  lemma PrivateCheckoutLocal(decode: Decoder, unit: nat, alnum: seq<CodePoint> -> bool, needle: seq<Byte>, folded: bool,
      s: seq<Byte>)
    requires unit <= LOOK_BACK && |needle| + unit <= REACH
    ensures Local(PrivateCheckout(decode, unit, alnum, needle, folded), s)
  {
    var p := PrivateCheckout(decode, unit, alnum, needle, folded);
    forall lo: nat, hi: nat, i: nat | InView(p, s, lo, hi, i)
      ensures SameVerdict(p, s, lo, hi, i)
    {
      if i + |needle| <= hi {
        ClipAhead(s, lo, hi, i + |needle|, unit);
        ClipBehind(s, lo, hi, i, unit);
      }
    }
    assert forall lo: nat, hi: nat :: Agrees(p, s, lo, hi);
  }

  lemma PrivateCheckoutTame(decode: Decoder, unit: nat, alnum: seq<CodePoint> -> bool, needle: seq<Byte>, folded: bool,
      s: seq<Byte>)
    requires unit <= LOOK_BACK && 1 <= |needle| && |needle| + unit <= REACH
    requires BorderFree(PrivateCheckout(decode, unit, alnum, needle, folded))
    ensures Tame(PrivateCheckout(decode, unit, alnum, needle, folded), s)
  {
    PrivateCheckoutLocal(decode, unit, alnum, needle, folded, s);
    BorderFreeWins(PrivateCheckout(decode, unit, alnum, needle, folded), s);
  }

  // ---- Every other rule ----

  /** An occurrence is a finding. */
  function Undecided(rule: string, needle: seq<Byte>, folded: bool): Pattern {
    Pattern(rule, needle, folded, (buf: seq<Byte>, i: nat) => true)
  }

  lemma UndecidedTame(rule: string, needle: seq<Byte>, folded: bool, s: seq<Byte>)
    requires 1 <= |needle| <= REACH
    ensures Tame(Undecided(rule, needle, folded), s)
  {
    var p := Undecided(rule, needle, folded);
    assert forall lo: nat, hi: nat :: Agrees(p, s, lo, hi);
  }
}
