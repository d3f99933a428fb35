/** Home roots in UTF-16. Their decision can read past the matcher's window, so what is
    found can depend on how the input is cut: here is exactly when. */
module WideHomes {
  import opened Prelude
  import opened Bytes
  import opened Matcher
  import opened ScannerRules
  import opened Cutting

  // ---- UTF-16 ----

  predicate IsHigh(unit: nat) {
    0xd800 <= unit < 0xdc00
  }

  predicate IsLow(unit: nat) {
    0xdc00 <= unit < 0xe000
  }

  function UnitAt(big: bool, b: seq<Byte>, k: nat): nat
    requires k + 2 <= |b|
  {
    var first: nat, second: nat := b[k], b[k + 1];
    if big then 256 * first + second else first + 256 * second
  }

  /** UTF-16 in either byte order with errors ignored: a lone surrogate and an odd last
      byte vanish. */
  function Utf16(big: bool, b: seq<Byte>): seq<CodePoint>
    decreases |b|
  {
    if |b| < 2 then [] else
    var unit := UnitAt(big, b, 0);
    if !IsHigh(unit) && !IsLow(unit) then [unit] + Utf16(big, b[2..])
    else if IsHigh(unit) && |b| >= 4 && IsLow(UnitAt(big, b, 2)) then
      [0x10000 + (unit - 0xd800) * 0x400 + (UnitAt(big, b, 2) - 0xdc00)] + Utf16(big, b[4..])
    else Utf16(big, b[2..])
  }

  /** A code unit in either byte order. */
  function UnitBytes(big: bool, unit: nat): seq<Byte>
    requires unit <= 0xffff
  {
    if big then [unit / 256, unit % 256] else [unit % 256, unit / 256]
  }

  lemma UnitBytesRead(big: bool, unit: nat, rest: seq<Byte>)
    requires unit <= 0xffff
    ensures UnitAt(big, UnitBytes(big, unit) + rest, 0) == unit && (UnitBytes(big, unit) + rest)[2..] == rest
  {}

  /** The encoding of section 2.1 of RFC 2781 reads back, ... */
  lemma Utf16Inverts(big: bool, c: nat, rest: seq<Byte>)
    requires c <= 0x10ffff && !(0xd800 <= c <= 0xdfff)
    ensures c <= 0xffff ==> Utf16(big, UnitBytes(big, c) + rest) == [c] + Utf16(big, rest)
    ensures c > 0xffff ==>
      var high, low := 0xd800 + (c - 0x10000) / 0x400, 0xdc00 + (c - 0x10000) % 0x400;
      Utf16(big, UnitBytes(big, high) + (UnitBytes(big, low) + rest)) == [c] + Utf16(big, rest)
  {
    if c <= 0xffff {
      UnitBytesRead(big, c, rest);
    } else {
      var high, low := 0xd800 + (c - 0x10000) / 0x400, 0xdc00 + (c - 0x10000) % 0x400;
      var b := UnitBytes(big, high) + (UnitBytes(big, low) + rest);
      UnitBytesRead(big, high, UnitBytes(big, low) + rest);
      UnitBytesRead(big, low, rest);
      assert UnitAt(big, b, 2) == UnitAt(big, b[2..], 0) && b[4..] == b[2..][2..];
    }
  }

  lemma UnitBytesBack(big: bool, b: seq<Byte>)
    requires |b| >= 2
    ensures UnitAt(big, b, 0) <= 0xffff && UnitBytes(big, UnitAt(big, b, 0)) == b[..2]
  {
    var first: nat, second: nat := b[0], b[1];
    assert (256 * first + second) / 256 == first && (256 * first + second) % 256 == second;
    assert (256 * second + first) / 256 == second && (256 * second + first) % 256 == first;
  }

  /** ... and a surrogate without its partner is passed over, as is an odd last byte. */
  lemma Utf16PassesOver(big: bool, unit: nat, rest: seq<Byte>)
    requires 0xd800 <= unit <= 0xdfff
    requires unit <= 0xdbff && |rest| >= 2 ==>
      forall low: nat :: 0xdc00 <= low <= 0xdfff ==> rest[..2] != UnitBytes(big, low)
    ensures Utf16(big, UnitBytes(big, unit) + rest) == Utf16(big, rest)
    ensures |rest| == 1 ==> Utf16(big, rest) == []
  {
    var b := UnitBytes(big, unit) + rest;
    UnitBytesRead(big, unit, rest);
    if |rest| >= 2 {
      UnitBytesBack(big, rest);
      assert UnitAt(big, b, 2) == UnitAt(big, b[2..], 0);
    }
  }

  function Utf16Decoder(big: bool): Decoder {
    (b: seq<Byte>) => Utf16(big, b)
  }

  /** A byte more decodes to at most one character more, behind the others. */
  lemma {:induction false} Gradual(big: bool, b: seq<Byte>, x: Byte)
    ensures Utf16(big, b) <= Utf16(big, b + [x]) && |Utf16(big, b + [x])| <= |Utf16(big, b)| + 1
    decreases |b|
  {
    if |b| >= 2 {
      assert UnitAt(big, b + [x], 0) == UnitAt(big, b, 0) && (b + [x])[2..] == b[2..] + [x];
      if |b| >= 4 && IsHigh(UnitAt(big, b, 0)) && IsLow(UnitAt(big, b, 2)) {
        assert UnitAt(big, b + [x], 2) == UnitAt(big, b, 2) && (b + [x])[4..] == b[4..] + [x];
        Gradual(big, b[4..], x);
      } else if |b| == 3 {
        assert Utf16(big, b[2..]) == [] && Utf16(big, (b + [x])[4..]) == [];
      } else {
        assert |b| >= 4 ==> UnitAt(big, b + [x], 2) == UnitAt(big, b, 2);
        Gradual(big, b[2..], x);
      }
    }
  }

  /** Text of one-byte characters in UTF-16. */
  function Wide(big: bool, text: seq<Byte>): (b: seq<Byte>)
    ensures |b| == 2 * |text|
  {
    if text == [] then []
    else (if big then [0, text[0]] else [text[0], 0]) + Wide(big, text[1..])
  }

  lemma {:induction false} WideAt(big: bool, text: seq<Byte>, k: nat)
    requires k < |text|
    ensures Wide(big, text)[2 * k] == if big then 0 else text[k]
    ensures Wide(big, text)[2 * k + 1] == if big then text[k] else 0
  {
    if k > 0 {
      WideAt(big, text[1..], k - 1);
      assert Wide(big, text)[2..] == Wide(big, text[1..]);
    }
  }

  lemma {:induction false} WideConcat(big: bool, a: seq<Byte>, b: seq<Byte>)
    ensures Wide(big, a + b) == Wide(big, a) + Wide(big, b)
  {
    if a == [] {
      assert a + b == b;
    } else {
      assert (a + b)[1..] == a[1..] + b;
      WideConcat(big, a[1..], b);
    }
  }

  lemma DropFirst<T>(a: seq<T>, b: seq<T>)
    ensures (a + b)[|a|..] == b
  {}

  lemma PlainFirst(big: bool, b: seq<Byte>)
    requires |b| >= 2 && UnitAt(big, b, 0) < 256
    ensures Utf16(big, b) == [UnitAt(big, b, 0)] + Utf16(big, b[2..])
  {}

  /** One-byte characters decode to themselves, whatever follows. */
  lemma {:induction false} WideDecodes(big: bool, text: seq<Byte>, rest: seq<Byte>)
    ensures Utf16(big, Wide(big, text) + rest) == text + Utf16(big, rest)
  {
    var b := Wide(big, text) + rest;
    if text == [] {
      assert b == rest;
    } else {
      var pair: seq<Byte> := if big then [0, text[0]] else [text[0], 0];
      Nest(pair, Wide(big, text[1..]), rest);
      DropFirst(pair, Wide(big, text[1..]) + rest);
      assert UnitAt(big, b, 0) == text[0];
      PlainFirst(big, b);
      WideDecodes(big, text[1..], rest);
      Nest([text[0]], text[1..], Utf16(big, rest));
    }
  }

  // ---- The account as more is read ----

  lemma {:induction false} AccountPrefix(a: seq<CodePoint>, b: seq<CodePoint>)
    requires a <= b
    ensures Account(a) <= Account(b) && |Account(b)| <= |Account(a)| + (|b| - |a|)
    ensures Account(a) != a ==> Account(b) == Account(a)
  {
    if a != [] {
      AccountPrefix(a[1..], b[1..]);
    }
  }

  /** The account that the first `k` bytes of the text show. */
  function AccountAt(big: bool, text: seq<Byte>, k: nat): seq<CodePoint>
    requires k <= |text|
  {
    Account(Utf16(big, text[..k]))
  }

  lemma AccountStep(big: bool, text: seq<Byte>, k: nat)
    requires k < |text|
    ensures Utf16(big, text[..k]) <= Utf16(big, text[..k + 1])
    ensures AccountAt(big, text, k) <= AccountAt(big, text, k + 1)
    ensures |AccountAt(big, text, k + 1)| <= |AccountAt(big, text, k)| + 1
  {
    assert text[..k + 1] == text[..k] + [text[k]];
    Gradual(big, text[..k], text[k]);
    AccountPrefix(Utf16(big, text[..k]), Utf16(big, text[..k + 1]));
  }

  lemma {:induction false} AccountGrows(big: bool, text: seq<Byte>, j: nat, k: nat)
    requires j <= k <= |text|
    ensures Utf16(big, text[..j]) <= Utf16(big, text[..k])
    ensures AccountAt(big, text, j) <= AccountAt(big, text, k)
    decreases k - j
  {
    if j < k {
      AccountStep(big, text, k - 1);
      AccountGrows(big, text, j, k - 1);
    }
  }

  /** It grows character by character, so it has every length in between. */
  lemma {:induction false} AccountReaches(big: bool, text: seq<Byte>, j: nat, k: nat, length: nat) returns (m: nat)
    requires j <= k <= |text| && |AccountAt(big, text, j)| <= length <= |AccountAt(big, text, k)|
    ensures j <= m <= k && |AccountAt(big, text, m)| == length
    decreases k - j
  {
    if |AccountAt(big, text, j)| == length {
      m := j;
    } else {
      AccountStep(big, text, j);
      m := AccountReaches(big, text, j + 1, k, length);
    }
  }

  /** With `k` bytes read the path names a builder. */
  predicate NamesAt(big: bool, text: seq<Byte>, k: nat)
    requires k <= |text|
  {
    NamesBuilder(Utf16(big, text[..k]))
  }

  /** From `least` bytes on the account is there, and is never just the runner's. */
  predicate Sure(big: bool, text: seq<Byte>, least: nat)
    requires least <= |text|
  {
    var first, last := AccountAt(big, text, least), AccountAt(big, text, |text|);
    first != [] && !(first <= RUNNER && RUNNER <= last)
  }

  /** From `least` bytes on there is no account, or it is the runner's. */
  predicate Idle(big: bool, text: seq<Byte>, least: nat)
    requires least <= |text|
  {
    var first, last := AccountAt(big, text, least), AccountAt(big, text, |text|);
    first == last && (first == [] || first == RUNNER)
  }

  lemma SureIff(big: bool, text: seq<Byte>, least: nat)
    requires least <= |text|
    ensures Sure(big, text, least) <==> forall k :: least <= k <= |text| ==> NamesAt(big, text, k)
  {
    var first, last := AccountAt(big, text, least), AccountAt(big, text, |text|);
    AccountGrows(big, text, least, |text|);
    if Sure(big, text, least) {
      forall k | least <= k <= |text|
        ensures NamesAt(big, text, k)
      {
        AccountGrows(big, text, least, k);
        AccountGrows(big, text, k, |text|);
      }
    } else if first != [] {
      var k := AccountReaches(big, text, least, |text|, |RUNNER|);
      AccountGrows(big, text, k, |text|);
      assert AccountAt(big, text, k) == last[..|RUNNER|] == RUNNER;
      assert !NamesAt(big, text, k);
    } else {
      assert !NamesAt(big, text, least);
    }
  }

  lemma IdleIff(big: bool, text: seq<Byte>, least: nat)
    requires least <= |text|
    ensures Idle(big, text, least) <==> forall k :: least <= k <= |text| ==> !NamesAt(big, text, k)
  {
    var first, last := AccountAt(big, text, least), AccountAt(big, text, |text|);
    AccountGrows(big, text, least, |text|);
    if Idle(big, text, least) {
      forall k | least <= k <= |text|
        ensures !NamesAt(big, text, k)
      {
        AccountGrows(big, text, least, k);
        AccountGrows(big, text, k, |text|);
      }
    } else if first != last {
      NamesSomewhere(big, text, least);
    } else {
      assert NamesAt(big, text, least);
    }
  }

  /** An account that still grows is a builder's at some point. */
  lemma NamesSomewhere(big: bool, text: seq<Byte>, least: nat)
    requires least <= |text| && AccountAt(big, text, least) != AccountAt(big, text, |text|)
    ensures exists k :: least <= k <= |text| && NamesAt(big, text, k)
  {
    var first, last := AccountAt(big, text, least), AccountAt(big, text, |text|);
    AccountGrows(big, text, least, |text|);
    if first != [] {
      assert NamesAt(big, text, least) || NamesAt(big, text, |text|);
    } else {
      var k := AccountReaches(big, text, least, |text|, 1);
      assert NamesAt(big, text, k);
    }
  }

  /** Enough is read to tell: a character that ends the account, or more characters than
      the runner's name has. */
  lemma EnoughRead(big: bool, text: seq<Byte>, least: nat)
    requires least <= |text|
    requires (exists c :: c in Utf16(big, text[..least]) && Stops(c))
      || |AccountAt(big, text, least)| > |RUNNER|
    ensures Sure(big, text, least) || Idle(big, text, least)
  {
    AccountGrows(big, text, least, |text|);
    AccountPrefix(Utf16(big, text[..least]), Utf16(big, text[..|text|]));
  }

  // ---- What a window shows ----

  function WideHome(big: bool, root: seq<Byte>): Pattern {
    HomeRoot(Utf16Decoder(big), 2, root)
  }

  /** A root in UTF-16: two slashes around a name that could itself be an account. */
  ghost predicate IsWideRoot(big: bool, root: seq<Byte>, name: seq<Byte>) {
    IsRoot([SLASH] + name + [SLASH], name) && root == Wide(big, [SLASH] + name + [SLASH])
  }

  const WIDE_ACCOUNT: nat := 2 * ACCOUNT_UNITS

  /** What the decision on an occurrence reads of the whole input. */
  function Ahead(root: seq<Byte>, s: seq<Byte>, i: nat): (text: seq<Byte>)
    requires i + |root| <= |s|
    ensures |text| <= WIDE_ACCOUNT
  {
    Clip(s, i + |root|, WIDE_ACCOUNT)
  }

  /** How much of it every window shows. */
  function Least(root: seq<Byte>, text: seq<Byte>): (n: nat)
    ensures n <= |text|
  {
    if |root| > REACH then 0 else if |text| < REACH - |root| then |text| else REACH - |root|
  }

  predicate SureAt(big: bool, root: seq<Byte>, s: seq<Byte>, i: nat) {
    i + |root| <= |s| && Sure(big, Ahead(root, s, i), Least(root, Ahead(root, s, i)))
  }

  predicate IdleAt(big: bool, root: seq<Byte>, s: seq<Byte>, i: nat) {
    i + |root| <= |s| && Idle(big, Ahead(root, s, i), Least(root, Ahead(root, s, i)))
  }

  /** How much of it a buffer up to `hi` shows. */
  function Shown(root: seq<Byte>, hi: nat, i: nat): nat
    requires i + |root| <= hi
  {
    if i + |root| + WIDE_ACCOUNT <= hi then WIDE_ACCOUNT else hi - (i + |root|)
  }

  /** A buffer judges by what it shows. */
  lemma Reads(big: bool, root: seq<Byte>, s: seq<Byte>, lo: nat, hi: nat, i: nat)
    requires lo <= i && i + |root| <= hi <= |s|
    ensures Shown(root, hi, i) <= |Ahead(root, s, i)|
    ensures WideHome(big, root).decide(s[lo..hi], i - lo) == NamesAt(big, Ahead(root, s, i), Shown(root, hi, i))
  {
    var from, k := i + |root|, Shown(root, hi, i);
    SliceOfSlice(s, lo, hi, from, from + k);
    assert Clip(s[lo..hi], from - lo, WIDE_ACCOUNT) == s[from..from + k];
    assert Ahead(root, s, i)[..k] == s[from..from + k];
  }

  lemma WindowShows(root: seq<Byte>, s: seq<Byte>, lo: nat, hi: nat, i: nat)
    requires 1 <= |root| <= REACH && i + |root| <= |s| && Window(s, lo, hi, i)
    ensures i + |root| <= hi
    ensures Least(root, Ahead(root, s, i)) <= Shown(root, hi, i) <= |Ahead(root, s, i)|
  {}

  /** Every amount from the least to all of it is shown by some window. */
  lemma WindowFor(root: seq<Byte>, s: seq<Byte>, i: nat, k: nat) returns (lo: nat, hi: nat)
    requires 1 <= |root| <= REACH && i + |root| <= |s|
    requires Least(root, Ahead(root, s, i)) <= k <= |Ahead(root, s, i)|
    ensures Window(s, lo, hi, i) && i + |root| <= hi && Shown(root, hi, i) == k
  {
    hi := i + |root| + k;
    lo := if i + REACH <= hi then 0 else Keep(Frontier(|s|));
  }

  lemma JudgedIs(big: bool, root: seq<Byte>, s: seq<Byte>, lo: nat, hi: nat, i: nat, verdict: bool)
    requires 1 <= |root| <= REACH && i + |root| <= |s| && Window(s, lo, hi, i)
    ensures i + |root| <= hi && Shown(root, hi, i) <= |Ahead(root, s, i)|
    ensures Judged(WideHome(big, root), verdict, s, lo, hi, i)
      <==> NamesAt(big, Ahead(root, s, i), Shown(root, hi, i)) == verdict
  {
    WindowShows(root, s, lo, hi, i);
    Reads(big, root, s, lo, hi, i);
  }

  /** A verdict is the same in all windows exactly when it is the same for all amounts. */
  lemma AlwaysIff(big: bool, root: seq<Byte>, s: seq<Byte>, i: nat, verdict: bool)
    requires 1 <= |root| <= REACH && i + |root| <= |s|
    ensures var text := Ahead(root, s, i);
      Always(WideHome(big, root), verdict, s, i)
      <==> forall k :: Least(root, text) <= k <= |text| ==> NamesAt(big, text, k) == verdict
  {
    var p, text := WideHome(big, root), Ahead(root, s, i);
    if Always(p, verdict, s, i) {
      forall k | Least(root, text) <= k <= |text|
        ensures NamesAt(big, text, k) == verdict
      {
        var lo, hi := WindowFor(root, s, i, k);
        assert Judged(p, verdict, s, lo, hi, i);
        JudgedIs(big, root, s, lo, hi, i, verdict);
      }
    }
    if forall k :: Least(root, text) <= k <= |text| ==> NamesAt(big, text, k) == verdict {
      forall lo: nat, hi: nat | Window(s, lo, hi, i)
        ensures Judged(p, verdict, s, lo, hi, i)
      {
        JudgedIs(big, root, s, lo, hi, i, verdict);
        WindowShows(root, s, lo, hi, i);
      }
    }
  }

  lemma AlwaysSure(big: bool, root: seq<Byte>, s: seq<Byte>, i: nat)
    requires 1 <= |root| <= REACH && i + |root| <= |s|
    ensures Always(WideHome(big, root), true, s, i) <==> SureAt(big, root, s, i)
    ensures Always(WideHome(big, root), false, s, i) <==> IdleAt(big, root, s, i)
  {
    var text := Ahead(root, s, i);
    AlwaysIff(big, root, s, i, true);
    AlwaysIff(big, root, s, i, false);
    SureIff(big, text, Least(root, text));
    IdleIff(big, text, Least(root, text));
  }

  /** The whole input is one of the windows, as far as the verdict goes. */
  lemma WholeJudges(big: bool, root: seq<Byte>, s: seq<Byte>, i: nat)
    requires 1 <= |root| <= REACH && i + |root| <= |s|
    ensures SureAt(big, root, s, i) ==> WideHome(big, root).decide(s, i)
    ensures IdleAt(big, root, s, i) ==> !WideHome(big, root).decide(s, i)
  {
    var text := Ahead(root, s, i);
    assert s[0..|s|] == s;
    Reads(big, root, s, 0, |s|, i);
    SureIff(big, text, Least(root, text));
    IdleIff(big, text, Least(root, text));
  }

  // ---- Roots that overlap ----

  /** Two roots of one byte order overlap in a slash only. */
  lemma WideAbut(big: bool, p: Pattern, q: Pattern, s: seq<Byte>, i: nat, j: nat, name: seq<Byte>, other: seq<Byte>)
    requires !p.folded && IsWideRoot(big, p.needle, name) && !q.folded && IsWideRoot(big, q.needle, other)
    requires OccursAt(p, s, i) && OccursAt(q, s, j) && i < j < i + |p.needle|
    ensures j == i + |p.needle| - 2
  {
    var d, text := j - i, [SLASH] + name + [SLASH];
    assert |text| == |name| + 2 && forall k :: 1 <= k <= |name| ==> text[k] == name[k - 1] && text[k] in name;
    assert Same(q, s[j + 0], q.needle[0]) && Same(p, s[i + d], p.needle[d]);
    WideAt(big, [SLASH] + other + [SLASH], 0);
    WideAt(big, text, d / 2);
    if d % 2 == 0 {
      assert Same(q, s[j + 1], q.needle[1]) && Same(p, s[i + (d + 1)], p.needle[d + 1]);
      assert text[d / 2] == SLASH;
    }
  }

  lemma WideSlice(big: bool, p: Pattern, s: seq<Byte>, j: nat, name: seq<Byte>)
    requires !p.folded && IsWideRoot(big, p.needle, name) && OccursAt(p, s, j)
    ensures s[j + 2..j + |p.needle|] == Wide(big, name + [SLASH])
  {
    assert ([SLASH] + name + [SLASH])[1..] == name + [SLASH];
    forall k | 0 <= k < |p.needle| - 2
      ensures s[j + 2 + k] == Wide(big, name + [SLASH])[k]
    {
      assert Same(p, s[j + (k + 2)], p.needle[k + 2]);
    }
  }

  /** With that much read the account is the root's own name. */
  lemma NameShown(big: bool, text: seq<Byte>, name: seq<Byte>, k: nat)
    requires 2 * |name| + 2 <= k <= |text| && text[..2 * |name| + 2] == Wide(big, name + [SLASH])
    requires forall b :: b in name ==> !Stops(b)
    ensures AccountAt(big, text, k) == name
  {
    var rest := text[2 * |name| + 2..k];
    assert text[..k] == Wide(big, name + [SLASH]) + rest;
    WideDecodes(big, name + [SLASH], rest);
    AccountIs(name, SLASH, Utf16(big, rest));
  }

  /** So the earlier of two overlapping roots always names a builder: the later one's name. */
  lemma EarlierSure(big: bool, root: seq<Byte>, name: seq<Byte>, next: seq<Byte>, other: seq<Byte>, s: seq<Byte>,
      i: nat, j: nat)
    requires IsWideRoot(big, root, name) && IsWideRoot(big, next, other) && 2 * |root| <= REACH && 2 * |next| <= REACH
    requires OccursAt(WideHome(big, root), s, i) && OccursAt(WideHome(big, next), s, j) && i < j < i + |root|
    ensures SureAt(big, root, s, i)
  {
    var text := Ahead(root, s, i);
    WideAbut(big, WideHome(big, root), WideHome(big, next), s, i, j, name, other);
    WideSlice(big, WideHome(big, next), s, j, other);
    assert text[..2 * |other| + 2] == s[j + 2..j + |next|];
    NameShown(big, text, other, Least(root, text));
    NameShown(big, text, other, |text|);
  }

  lemma {:induction false} FirstSure(big: bool, root: seq<Byte>, name: seq<Byte>, s: seq<Byte>, i: nat)
      returns (first: nat)
    requires IsWideRoot(big, root, name) && 2 * |root| <= REACH
    requires OccursAt(WideHome(big, root), s, i) && SureAt(big, root, s, i)
    ensures Clear(WideHome(big, root), s, first) && SureAt(big, root, s, first)
    decreases i
  {
    if n: nat :| Overlap(WideHome(big, root), s, n, i) {
      EarlierSure(big, root, name, root, name, s, n, i);
      first := FirstSure(big, root, name, s, n);
    } else {
      first := i;
    }
  }

  // ---- Every cut finds it ----

  lemma SureFound(big: bool, root: seq<Byte>, name: seq<Byte>, s: seq<Byte>, i: nat)
    requires IsWideRoot(big, root, name) && 2 * |root| <= REACH
    requires OccursAt(WideHome(big, root), s, i) && SureAt(big, root, s, i)
    ensures Independent(WideHome(big, root), s)
  {
    var first := FirstSure(big, root, name, s, i);
    AlwaysSure(big, root, s, first);
    WholeJudges(big, root, s, first);
    FixedFound(WideHome(big, root), s, first);
  }

  /** All occurrences are idle. */
  ghost predicate AllIdle(big: bool, root: seq<Byte>, s: seq<Byte>) {
    forall i: nat :: OccursAt(WideHome(big, root), s, i) ==> IdleAt(big, root, s, i)
  }

  lemma IdleNotFound(big: bool, root: seq<Byte>, s: seq<Byte>)
    requires 1 <= |root| <= REACH && AllIdle(big, root, s)
    ensures Independent(WideHome(big, root), s)
  {
    var p := WideHome(big, root);
    forall i: nat | OccursAt(p, s, i)
      ensures Fixed(p, false, s, i)
    {
      AlwaysSure(big, root, s, i);
      WholeJudges(big, root, s, i);
    }
    FixedNotFound(p, s);
  }

  // ---- Cuts that find it, and cuts that do not ----

  /** An occurrence that is not idle is decided for the rule in some window. */
  lemma FindingCut(big: bool, root: seq<Byte>, s: seq<Byte>, i: nat) returns (chunks: seq<seq<Byte>>)
    requires 1 <= |root| <= REACH && Clear(WideHome(big, root), s, i) && !IdleAt(big, root, s, i)
    ensures Flatten(chunks) == s && Streamed([WideHome(big, root)], chunks) == {"builder-home"}
  {
    var p := WideHome(big, root);
    AlwaysSure(big, root, s, i);
    var lo: nat, hi: nat :| Window(s, lo, hi, i) && !Judged(p, false, s, lo, hi, i);
    chunks := Cuts(s, lo, hi, i);
    CutsFlatten(s, lo, hi, i);
    CutsDecide(p, s, lo, hi, i);
    StreamFindsIt(p, s, chunks, i);
  }

  ghost predicate NoneSure(big: bool, root: seq<Byte>, s: seq<Byte>) {
    forall i: nat :: OccursAt(WideHome(big, root), s, i) ==> !SureAt(big, root, s, i)
  }

  /** An amount that does not show a builder's account. */
  lemma Unnamed(big: bool, root: seq<Byte>, s: seq<Byte>, i: nat) returns (k: nat)
    requires 1 <= |root| <= REACH && i + |root| <= |s| && !SureAt(big, root, s, i)
    ensures var text := Ahead(root, s, i); Least(root, text) <= k <= |text| && !NamesAt(big, text, k)
  {
    var text := Ahead(root, s, i);
    SureIff(big, text, Least(root, text));
    k :| Least(root, text) <= k <= |text| && !NamesAt(big, text, k);
  }

  /** A root of which no occurrence is sure. */
  ghost predicate Unsure(p: Pattern, s: seq<Byte>, big: bool, root: seq<Byte>, name: seq<Byte>) {
    && p == WideHome(big, root) && IsWideRoot(big, root, name)
    && 2 * |root| <= REACH && NoneSure(big, root, s)
  }

  ghost predicate Meet(p: Pattern, q: Pattern, s: seq<Byte>, i: nat, n: nat) {
    i <= n < i + |p.needle| && OccursAt(p, s, i) && OccursAt(q, s, n)
  }

  /** Roots of one byte order that are never sure share no byte. */
  lemma NotMeeting(big: bool, root: seq<Byte>, name: seq<Byte>, next: seq<Byte>, other: seq<Byte>, s: seq<Byte>,
      i: nat, n: nat)
    requires Unsure(WideHome(big, root), s, big, root, name) && Unsure(WideHome(big, next), s, big, next, other)
    requires Meet(WideHome(big, root), WideHome(big, next), s, i, n)
    ensures i == n
  {
    if i < n {
      EarlierSure(big, root, name, next, other, s, i, n);
    }
  }

  /** A feed up to the end of that amount decides the occurrence against the rule. */
  lemma SilentOne(big: bool, root: seq<Byte>, s: seq<Byte>, i: nat, k: nat, lo: nat)
    requires 1 <= |root| <= REACH && i + REACH <= |s| && lo <= i
    requires var text := Ahead(root, s, i); Least(root, text) <= k <= |text| && !NamesAt(big, text, k)
    ensures var hi := i + |root| + k;
      i + REACH <= hi <= |s| && Judged(WideHome(big, root), false, s, lo, hi, i)
  {
    Reads(big, root, s, lo, i + |root| + k, i);
  }

  /** An occurrence at the end of the input is judged on all there is behind it. */
  lemma SilentLast(big: bool, root: seq<Byte>, s: seq<Byte>, n: nat)
    requires 1 <= |root| <= REACH && n + |root| <= |s| && Frontier(|s|) <= n && !SureAt(big, root, s, n)
    ensures Judged(WideHome(big, root), false, s, Keep(Frontier(|s|)), |s|, n)
  {
    var text := Ahead(root, s, n);
    var k := Unnamed(big, root, s, n);
    assert |text| == |s| - (n + |root|) == Least(root, text) == Shown(root, |s|, n);
    Reads(big, root, s, Keep(Frontier(|s|)), |s|, n);
  }

  ghost predicate AllUnsure(ps: seq<Pattern>, s: seq<Byte>) {
    forall p :: p in ps ==> exists big: bool, root: seq<Byte>, name: seq<Byte> :: Unsure(p, s, big, root, name)
  }

  /** No two occurrences of the patterns share a byte. */
  ghost predicate Apart(ps: seq<Pattern>, s: seq<Byte>) {
    forall p, q, i: nat, n: nat :: p in ps && q in ps && Meet(p, q, s, i, n) ==> p == q && i == n
  }

  lemma SilencesOne(ps: seq<Pattern>, s: seq<Byte>, p: Pattern, big: bool, root: seq<Byte>, name: seq<Byte>, i: nat)
      returns (hi: nat)
    requires Apart(ps, s) && p in ps && Unsure(p, s, big, root, name) && OccursAt(p, s, i) && i + REACH <= |s|
    ensures Silences(ps, s, i, hi)
  {
    var k := Unnamed(big, root, s, i);
    hi := i + |root| + k;
    SilentOne(big, root, s, i, k, i);
    forall n: nat | OccursSome(ps, s, n) && n > i
      ensures hi < n + REACH
    {
      var q :| q in ps && OccursAt(q, s, n);
      assert n < i + |root| ==> Meet(p, q, s, i, n);
    }
    forall lo: nat, q | lo <= i && q in ps && OccursAt(q, s, i)
      ensures Judged(q, false, s, lo, hi, i)
    {
      assert Meet(p, q, s, i, i);
      SilentOne(big, root, s, i, k, lo);
    }
  }

  /** Roots that are never sure and do not overlap are silent along one cut. */
  lemma UnsureCut(ps: seq<Pattern>, s: seq<Byte>) returns (chunks: seq<seq<Byte>>)
    requires AllUnsure(ps, s) && Apart(ps, s)
    ensures Flatten(chunks) == s && AllSilent(ps, s, 0, chunks)
  {
    forall i: nat | OccursSome(ps, s, i) && i + REACH <= |s|
      ensures exists hi: nat :: Silences(ps, s, i, hi)
    {
      var p :| p in ps && OccursAt(p, s, i);
      var big: bool, root: seq<Byte>, name: seq<Byte> :| Unsure(p, s, big, root, name);
      var hi := SilencesOne(ps, s, p, big, root, name, i);
    }
    forall i: nat, p | Frontier(|s|) <= i && p in ps && OccursAt(p, s, i)
      ensures Judged(p, false, s, Keep(Frontier(|s|)), |s|, i)
    {
      var big: bool, root: seq<Byte>, name: seq<Byte> :| Unsure(p, s, big, root, name);
      SilentLast(big, root, s, i);
    }
    assert forall p :: p in ps ==> 1 <= |p.needle|;
    assert s[0..] == s;
    chunks := SilentCut(ps, s, 0, 0);
  }

  /** Some occurrence is sure, or all of them are idle. */
  ghost predicate Settled(big: bool, root: seq<Byte>, s: seq<Byte>) {
    (exists i: nat :: OccursAt(WideHome(big, root), s, i) && SureAt(big, root, s, i)) || AllIdle(big, root, s)
  }

  /** What a UTF-16 home root finds in an input does not depend on how it is cut exactly
      when the input is settled: that can be read off the first and the last account that
      each occurrence shows. */
  lemma HomeCuttingIff(big: bool, root: seq<Byte>, name: seq<Byte>, s: seq<Byte>)
    requires IsWideRoot(big, root, name) && 2 * |root| <= REACH
    ensures Independent(WideHome(big, root), s) <==> Settled(big, root, s)
  {
    var p := WideHome(big, root);
    if i: nat :| OccursAt(p, s, i) && SureAt(big, root, s, i) {
      SureFound(big, root, name, s, i);
    } else if AllIdle(big, root, s) {
      IdleNotFound(big, root, s);
    } else {
      CutsDiffer(big, root, name, s);
    }
  }

  /** The occurrence shows a character that ends its account, or more than the runner's
      name, within what every window shows. */
  ghost predicate EnoughAt(big: bool, root: seq<Byte>, s: seq<Byte>, i: nat) {
    i + |root| <= |s|
    && var text := Ahead(root, s, i);
       var shown := Utf16(big, text[..Least(root, text)]);
       (exists c :: c in shown && Stops(c)) || |Account(shown)| > |RUNNER|
  }

  /** Enough to be settled, for whatever number of occurrences. */
  lemma EnoughSettles(big: bool, root: seq<Byte>, s: seq<Byte>)
    requires forall i: nat :: OccursAt(WideHome(big, root), s, i) ==> EnoughAt(big, root, s, i)
    ensures Settled(big, root, s)
  {
    forall i: nat | OccursAt(WideHome(big, root), s, i)
      ensures SureAt(big, root, s, i) || IdleAt(big, root, s, i)
    {
      var text := Ahead(root, s, i);
      EnoughRead(big, text, Least(root, text));
    }
  }

  lemma RootApart(big: bool, root: seq<Byte>, name: seq<Byte>, s: seq<Byte>)
    requires IsWideRoot(big, root, name) && 2 * |root| <= REACH && NoneSure(big, root, s)
    ensures AllUnsure([WideHome(big, root)], s) && Apart([WideHome(big, root)], s)
  {
    var p := WideHome(big, root);
    assert Unsure(p, s, big, root, name);
    forall i: nat, n: nat | Meet(p, p, s, i, n)
      ensures i == n
    {
      NotMeeting(big, root, name, root, name, s, i, n);
    }
  }

  /** Where no occurrence is sure and not all are idle, some cut finds a builder home. */
  lemma LooseFindingCut(big: bool, root: seq<Byte>, name: seq<Byte>, s: seq<Byte>) returns (chunks: seq<seq<Byte>>)
    requires IsWideRoot(big, root, name) && 2 * |root| <= REACH
    requires NoneSure(big, root, s) && !AllIdle(big, root, s)
    ensures Flatten(chunks) == s && Streamed([WideHome(big, root)], chunks) == {"builder-home"}
  {
    var p := WideHome(big, root);
    var i: nat :| OccursAt(p, s, i) && !IdleAt(big, root, s, i);
    forall n: nat
      ensures !Overlap(p, s, n, i)
    {
      if Overlap(p, s, n, i) {
        EarlierSure(big, root, name, root, name, s, n, i);
      }
    }
    chunks := FindingCut(big, root, s, i);
  }

  /** And another finds none. */
  lemma CutsDiffer(big: bool, root: seq<Byte>, name: seq<Byte>, s: seq<Byte>)
    requires IsWideRoot(big, root, name) && 2 * |root| <= REACH
    requires NoneSure(big, root, s) && !AllIdle(big, root, s)
    ensures !Independent(WideHome(big, root), s)
  {
    var p := WideHome(big, root);
    var found := LooseFindingCut(big, root, name, s);
    RootApart(big, root, name, s);
    var silent := UnsureCut([p], s);
    StreamFindsNothing(p, s, silent);
  }

  /** Of two overlapping roots the earlier is always decided for the rule. */
  lemma WideEarlierWins(big: bool, root: seq<Byte>, name: seq<Byte>, s: seq<Byte>)
    requires IsWideRoot(big, root, name) && 2 * |root| <= REACH
    ensures EarlierWins(WideHome(big, root), s)
  {
    forall i: nat, j: nat | Overlap(WideHome(big, root), s, i, j)
      ensures WideHome(big, root).decide(s, i)
    {
      EarlierSure(big, root, name, root, name, s, i, j);
      WholeJudges(big, root, s, i);
    }
  }

  // ---- An input that depends on the cut ----

  const HOME16: seq<Byte> := [47, 0, 104, 0, 111, 0, 109, 0, 101, 0, 47, 0]

  /** `n` lone low surrogates U+DC00. */
  function Lone(n: nat): (b: seq<Byte>)
    ensures |b| == 2 * n
  {
    seq(2 * n, (k: nat) => if k % 2 == 0 then 0 else 0xdc)
  }

  lemma LowVanishes(b: seq<Byte>)
    requires |b| >= 2 && b[0] == 0 && b[1] == 0xdc
    ensures Utf16(false, b) == Utf16(false, b[2..])
  {
    assert IsLow(UnitAt(false, b, 0));
  }

  lemma {:induction false} LoneVanishes(n: nat, rest: seq<Byte>)
    ensures Utf16(false, Lone(n) + rest) == Utf16(false, rest)
  {
    if n == 0 {
      assert Lone(0) + rest == rest;
    } else {
      LowVanishes(Lone(n) + rest);
      LoneLess(n, rest);
      LoneVanishes(n - 1, rest);
    }
  }

  lemma LoneLess(n: nat, rest: seq<Byte>)
    requires n > 0
    ensures (Lone(n) + rest)[2..] == Lone(n - 1) + rest
  {
    assert Lone(n)[2..] == Lone(n - 1);
  }

  /** `/home/`, 2043 lone surrogates, and an account named x. */
  function FarAccount(): (s: seq<Byte>)
    ensures |s| == 4100
  {
    HOME16 + Lone(2043) + [120, 0]
  }

  lemma FarAccountSole()
    ensures Sole(WideHome(false, HOME16), FarAccount(), 0)
  {
    var p, s := WideHome(false, HOME16), FarAccount();
    assert forall k :: 0 <= k < 12 ==> s[0 + k] == p.needle[k];
    assert forall k :: 12 <= k < |s| ==> s[k] != 47 by {
      assert forall k :: 0 <= k < 4088 ==> (Lone(2043) + [120, 0])[k] != 47;
    }
    forall n: nat | OccursAt(p, s, n)
      ensures n == 0
    {
      assert Same(p, s[n + 0], p.needle[0]) && Same(p, s[n + 2], p.needle[2]);
    }
  }

  lemma Utf16Reads(buf: seq<Byte>, text: seq<Byte>)
    requires |buf| >= 12 && Clip(buf, 12, ACCOUNT_UNITS * 2) == text
    ensures WideHome(false, HOME16).decide(buf, 0) == NamesBuilder(Utf16(false, text))
  {}

  /** Whole, the account lies within the 2048 units that the decision reads. */
  lemma FarAccountRead()
    ensures WideHome(false, HOME16).decide(FarAccount(), 0)
  {
    var text := Lone(2043) + [120, 0];
    assert FarAccount()[12..] == text;
    Utf16Reads(FarAccount(), text);
    LoneVanishes(2043, [120, 0]);
    XIsBuilder();
  }

  lemma XIsBuilder()
    ensures NamesBuilder(Utf16(false, [120, 0]))
  {
    assert UnitAt(false, [120, 0], 0) == 120;
    assert Utf16(false, [120, 0]) == [120] + Utf16(false, []);
    assert Account([120]) == [120] + Account([]);
  }

  /** Cut behind byte 4097, nothing but lone surrogates is left to read. */
  lemma FarAccountCut()
    ensures !WideHome(false, HOME16).decide(FarAccount()[0..4097], 0)
  {
    var text := Lone(2042) + [0];
    assert FarAccount()[0..4097][12..] == text by {
      assert FarAccount()[12..] == Lone(2043) + [120, 0];
    }
    Utf16Reads(FarAccount()[0..4097], text);
    LoneVanishes(2042, [0]);
  }

  /** An input on which it does depend: the decision reads 12 bytes of needle and 4096
      behind it, which is more than the 4096 held back. Read in two pieces this input has
      no builder home, read whole it has one. */
  lemma Utf16HomeSplits()
    ensures Streamed([WideHome(false, HOME16)], [FarAccount()[..4097], FarAccount()[4097..]]) == {}
    ensures Whole([WideHome(false, HOME16)], FarAccount()) == {"builder-home"}
  {
    var p, s := WideHome(false, HOME16), FarAccount();
    FarAccountSole();
    FarAccountRead();
    SoleWhole(p, s, 0);
    FarAccountCut();
    CutsFlatten(s, 0, 4097, 0);
    CutsDecide(p, s, 0, 4097, 0);
    SoleFinds(p, false, s, Cuts(s, 0, 4097, 0), 0);
  }
}
