/** What the scanner answers, said without its loops: where a rule is found, character by
    character and neighbour by neighbour. */
module ScannerFinds {
  import opened Prelude
  import opened Bytes
  import opened Matcher
  import opened ScannerRules
  import opened Cutting
  import opened WideHomes
  import opened ScannerHost
  import opened ApprovedSpans
  import opened GoRecords
  import opened ScannerPolicy

  // ---- Published names ----

  /** Something stands in front that continues a name: a letter or digit, or one of
      `.` `_` `/` `@` `-`. */
  predicate LeadsIn(h: Host, before: seq<CodePoint>) {
    before != []
    && (h.alnum(before) || before == [46] || before == [95] || before == [47] || before == [64] || before == [45])
  }

  /** Something follows that continues the text: a letter or digit, or one of `.` `_` `-`,
      or `@` behind a text that starts with "github", or `/` behind one that starts with `@`. */
  predicate LeadsOn(h: Host, text: seq<CodePoint>, after: seq<CodePoint>) {
    after != []
    && (h.alnum(after) || after == [46] || after == [95] || after == [45]
        || ([103, 105, 116, 104, 117, 98] <= text && after == [64]) || ([64] <= text && after == [47]))
  }

  /** The bytes end with a NUL, one to four bytes of a longer number, and its last byte. */
  ghost predicate EndsInLength(a: seq<Byte>) {
    exists width: nat :: LengthOf(a, width)
  }

  ghost predicate LengthOf(a: seq<Byte>, width: nat) {
    && 2 <= width <= 5 && width < |a| && a[|a| - width - 1] == 0
    && forall k :: |a| - width <= k < |a| - 1 ==> a[k] >= 128
  }

  /** The text stands between `a` and `b` as a name of its own. */
  ghost predicate StandsFree(h: Host, e: Encoding, text: seq<CodePoint>, a: seq<Byte>, b: seq<Byte>) {
    && !(a != [] && LeadsIn(h, Decoding(h, e)(LastOf(a, Unit(e)))))
    && !(b != [] && LeadsOn(h, text, Decoding(h, e)(FirstOf(b, Unit(e)))))
    && !(e.EncUtf8? && [103, 105, 116, 104, 117, 98, 46, 99, 111, 109, 47] <= text && EndsInLength(a))
  }

  /** The operator's name at `i` is part of the exception's text, which stands free. */
  ghost predicate Published(h: Host, e: Encoding, x: Exception, s: seq<Byte>, i: nat) {
    exists a: seq<Byte>, b: seq<Byte> ::
      s == a + h.encode(e, x.text) + b && i == |a| + NameAt(x.text) * Unit(e) && StandsFree(h, e, x.text, a, b)
  }

  lemma Around(a: seq<Byte>, token: seq<Byte>, b: seq<Byte>, unit: nat)
    requires unit > 0
    ensures var s, end := a + token + b, |a| + |token|;
      && Slice(s, |a|, end) == token && Slice(s, end, end + unit) == FirstOf(b, unit)
      && Slice(s, Back(|a|, unit), |a|) == LastOf(a, unit)
  {
    var s, end := a + token + b, |a| + |token|;
    assert s[|a|..end] == token && s[Back(|a|, unit)..|a|] == LastOf(a, unit);
    assert s[end..] == b;
    if unit <= |b| {
      assert s[end..end + unit] == b[..unit];
    }
  }

  lemma LengthBehind(read: Reader, a: seq<Byte>, rest: seq<Byte>, s: seq<Byte>)
    requires ReadsFrom(read, s) && s == a + rest
    ensures BinaryLength(read, |a|) <==> EndsInLength(a)
  {
    forall width: nat
      ensures 2 <= width <= 5 && LongLength(read, |a|, width) <==> LengthOf(a, width)
    {
      LongBehind(read, a, rest, s, width);
    }
  }

  lemma LongBehind(read: Reader, a: seq<Byte>, rest: seq<Byte>, s: seq<Byte>, width: nat)
    requires ReadsFrom(read, s) && s == a + rest
    ensures 2 <= width <= 5 && LongLength(read, |a|, width) <==> LengthOf(a, width)
  {
    if 2 <= width <= 5 && width < |a| {
      var n := |a|;
      var field := a[n - width..n - 1];
      assert ReadsAt(read, s, n - width - 1, n - width) && ReadsAt(read, s, n - width, n - 1);
      assert forall k :: 0 <= k < n ==> s[k] == a[k];
      assert s[n - width - 1..n - width] == [a[n - width - 1]];
      assert s[n - width..n - 1] == field;
      assert forall k :: n - width <= k < n - 1 ==> a[k] == field[k - (n - width)];
      assert forall k :: 0 <= k < |field| ==> field[k] in field;
    }
  }

  lemma NeighboursMean(h: Host, e: Encoding, text: seq<CodePoint>, a: seq<Byte>, b: seq<Byte>)
    requires SoundHost(h)
    ensures Delimited(h, text, Decoding(h, e)(LastOf(a, Unit(e))), Decoding(h, e)(FirstOf(b, Unit(e)))) <==>
      !(a != [] && LeadsIn(h, Decoding(h, e)(LastOf(a, Unit(e)))))
      && !(b != [] && LeadsOn(h, text, Decoding(h, e)(FirstOf(b, Unit(e)))))
  {
    assert Decoding(h, e)([]) == [];
  }

  lemma TextAtIs(h: Host, decode: Decoder, unit: nat, x: Exception, token: seq<Byte>, read: Reader, begin: nat,
      before: seq<Byte>, after: seq<Byte>)
    requires read(begin, begin + |token|) == token && read(Back(begin, unit), begin) == before
    requires read(begin + |token|, begin + |token| + unit) == after
    ensures TextAt(h, decode, unit, x, token, read, begin) <==>
      !(unit == 1 && GITHUB_COM <= x.text && BinaryLength(read, begin))
      && Delimited(h, x.text, decode(before), decode(after))
  {}

  lemma TextReads(read: Reader, a: seq<Byte>, token: seq<Byte>, b: seq<Byte>, unit: nat, s: seq<Byte>)
    requires ReadsFrom(read, s) && s == a + token + b && unit > 0
    ensures var end := |a| + |token|;
      && read(|a|, end) == token && read(end, end + unit) == FirstOf(b, unit)
      && read(Back(|a|, unit), |a|) == LastOf(a, unit)
  {
    var end := |a| + |token|;
    Around(a, token, b, unit);
    assert ReadsAt(read, s, |a|, end) && ReadsAt(read, s, end, end + unit) && ReadsAt(read, s, Back(|a|, unit), |a|);
  }

  lemma TextMeans(h: Host, e: Encoding, x: Exception, read: Reader, a: seq<Byte>, b: seq<Byte>, s: seq<Byte>)
    requires SoundHost(h) && ReadsFrom(read, s) && s == a + h.encode(e, x.text) + b
    ensures TextAt(h, Decoding(h, e), Unit(e), x, h.encode(e, x.text), read, |a|) <==> StandsFree(h, e, x.text, a, b)
  {
    var token := h.encode(e, x.text);
    TextReads(read, a, token, b, Unit(e), s);
    TextAtIs(h, Decoding(h, e), Unit(e), x, token, read, |a|, LastOf(a, Unit(e)), FirstOf(b, Unit(e)));
    Nest(a, token, b);
    LengthBehind(read, a, token + b, s);
    NeighboursMean(h, e, x.text, a, b);
  }

  lemma InTextAt(h: Host, e: Encoding, x: Exception, read: Reader, begin: nat, i: nat)
    requires i == begin + NameAt(x.text) * Unit(e)
    ensures InText(h, e, x, read, i)
      <==> x.kind == Namespace && TextAt(h, Decoding(h, e), Unit(e), x, h.encode(e, x.text), read, begin)
  {}

  lemma AroundText(h: Host, e: Encoding, x: Exception, read: Reader, a: seq<Byte>, b: seq<Byte>, s: seq<Byte>, i: nat)
    requires SoundHost(h) && ReadsFrom(read, s) && s == a + h.encode(e, x.text) + b
    requires i == |a| + NameAt(x.text) * Unit(e)
    ensures InText(h, e, x, read, i) <==> x.kind == Namespace && StandsFree(h, e, x.text, a, b)
  {
    TextMeans(h, e, x, read, a, b, s);
    InTextAt(h, e, x, read, |a|, i);
  }

  lemma InTextStarts(h: Host, e: Encoding, x: Exception, read: Reader, i: nat) returns (begin: nat)
    requires InText(h, e, x, read, i)
    ensures i == begin + NameAt(x.text) * Unit(e)
    ensures read(begin, begin + |h.encode(e, x.text)|) == h.encode(e, x.text)
  {
    begin := i - NameAt(x.text) * Unit(e);
  }

  lemma SplitAround(read: Reader, s: seq<Byte>, begin: nat, token: seq<Byte>) returns (a: seq<Byte>, b: seq<Byte>)
    requires ReadsFrom(read, s) && begin <= |s| && read(begin, begin + |token|) == token
    ensures s == a + token + b && |a| == begin
  {
    assert ReadsAt(read, s, begin, begin + |token|);
    a, b := s[..begin], s[begin + |token|..];
  }

  /** A name is approved in text exactly when an exception's text stands free around it. */
  lemma InTextMeans(h: Host, e: Encoding, x: Exception, read: Reader, s: seq<Byte>, i: nat)
    requires SoundHost(h) && ReadsFrom(read, s) && i <= |s|
    ensures InText(h, e, x, read, i) <==> x.kind == Namespace && Published(h, e, x, s, i)
  {
    if InText(h, e, x, read, i) {
      var begin := InTextStarts(h, e, x, read, i);
      var a, b := SplitAround(read, s, begin, h.encode(e, x.text));
      AroundText(h, e, x, read, a, b, s, i);
    }
    if Published(h, e, x, s, i) {
      var a: seq<Byte>, b: seq<Byte> :|
        s == a + h.encode(e, x.text) + b && i == |a| + NameAt(x.text) * Unit(e) && StandsFree(h, e, x.text, a, b);
      AroundText(h, e, x, read, a, b, s, i);
    }
  }

  // ---- The approved spans ----

  /** The operator's name at `i` is part of an exception's text in a Go record. */
  ghost predicate Compiled(h: Host, x: Exception, s: seq<Byte>, i: nat) {
    && NameAt(x.text) <= i
    && var token, begin := h.encode(EncUtf8, x.text), i - NameAt(x.text);
       || (x.kind == GoImportName && GoNamed(token, s, begin))
       || (x.kind == GoEqualitySymbol && GoSymbolAt(token, s, begin))
  }

  lemma InGoMeans(h: Host, x: Exception, read: Reader, s: seq<Byte>, i: nat)
    requires ReadsFrom(read, s) && i <= |s|
    ensures InGo(h, x, read, i) <==> Compiled(h, x, s, i)
  {
    if NameAt(x.text) <= i {
      var token, begin := h.encode(EncUtf8, x.text), i - NameAt(x.text);
      if x.kind == GoImportName {
        RecordMeans(token, read, s, begin, x);
      } else if x.kind == GoEqualitySymbol {
        SymbolMeans(token, read, s, begin, x);
      }
    }
  }

  ghost predicate Excepted(h: Host, e: Encoding, exceptions: seq<Exception>, s: seq<Byte>, i: nat) {
    exists x {:trigger Published(h, e, x, s, i)} :: x in exceptions && x.kind == Namespace && Published(h, e, x, s, i)
  }

  ghost predicate ExceptedGo(h: Host, exceptions: seq<Exception>, s: seq<Byte>, i: nat) {
    exists x {:trigger Compiled(h, x, s, i)} :: x in exceptions && Compiled(h, x, s, i)
  }

  /** The operator's name in the other byte order starts at `i`, published. */
  ghost predicate ExceptedAside(h: Host, e: Encoding, exceptions: seq<Exception>, s: seq<Byte>, i: nat) {
    && OccursAt(Undecided("", h.encode(e, OPERATOR), false), s, i)
    && Excepted(h, e, exceptions, s, i)
  }

  /** Published as it stands; or, in UTF-8, compiled into a Go record; or, in UTF-16,
      published in the other byte order one byte aside. */
  ghost predicate Cleared(h: Host, e: Encoding, exceptions: seq<Exception>, s: seq<Byte>, i: nat) {
    || Excepted(h, e, exceptions, s, i)
    || (e == EncUtf8 && ExceptedGo(h, exceptions, s, i))
    || (e == EncUtf16Le && ((i > 0 && ExceptedAside(h, EncUtf16Be, exceptions, s, i - 1))
                            || ExceptedAside(h, EncUtf16Be, exceptions, s, i + 1)))
    || (e == EncUtf16Be && ((i > 0 && ExceptedAside(h, EncUtf16Le, exceptions, s, i - 1))
                            || ExceptedAside(h, EncUtf16Le, exceptions, s, i + 1)))
  }

  lemma ApprovedMeans(h: Host, e: Encoding, exceptions: seq<Exception>, read: Reader, s: seq<Byte>, i: nat)
    requires SoundHost(h) && ReadsFrom(read, s) && i <= |s|
    ensures Approved(h, e, exceptions, read, i) <==> Excepted(h, e, exceptions, s, i)
    ensures ApprovedGo(h, exceptions, read, i) <==> ExceptedGo(h, exceptions, s, i)
  {
    forall x
      ensures InText(h, e, x, read, i) <==> x.kind == Namespace && Published(h, e, x, s, i)
      ensures InGo(h, x, read, i) <==> Compiled(h, x, s, i)
    {
      InTextMeans(h, e, x, read, s, i);
      InGoMeans(h, x, read, s, i);
    }
  }

  lemma OperatorIsSome(h: Host, e: Encoding)
    requires SoundHost(h)
    ensures h.encode(e, OPERATOR) != []
  {
    assert |OPERATOR| <= |h.encode(e, OPERATOR)|;
  }

  lemma AsideMeans(h: Host, e: Encoding, exceptions: seq<Exception>, read: Reader, s: seq<Byte>, i: nat)
    requires ReadsFrom(read, s) && i <= |s| + 1 && h.encode(Alternate(e), OPERATOR) != []
    requires i <= |s| ==>
      (Approved(h, Alternate(e), exceptions, read, i) <==> Excepted(h, Alternate(e), exceptions, s, i))
    ensures ApprovedAside(h, e, exceptions, read, i) <==> ExceptedAside(h, Alternate(e), exceptions, s, i)
  {
    var other := h.encode(Alternate(e), OPERATOR);
    assert ReadsAt(read, s, i, i + |other|);
    SliceOccurs(other, s, i);
  }

  lemma SliceOccurs(needle: seq<Byte>, s: seq<Byte>, i: nat)
    requires needle != []
    ensures Slice(s, i, i + |needle|) == needle <==> OccursAt(Undecided("", needle, false), s, i)
  {
    var p := Undecided("", needle, false);
    if OccursAt(p, s, i) {
      assert forall k :: 0 <= k < |needle| ==> Same(p, s[i + k], p.needle[k]);
      assert s[i..i + |needle|] == needle;
    } else if i + |needle| <= |s| {
      var k :| 0 <= k < |needle| && s[i + k] != needle[k];
      assert Slice(s, i, i + |needle|)[k] == s[i + k];
    }
  }

  ghost predicate AsideIff(h: Host, e: Encoding, exceptions: seq<Exception>, read: Reader, s: seq<Byte>, i: nat) {
    ApprovedAside(h, e, exceptions, read, i) <==> ExceptedAside(h, Alternate(e), exceptions, s, i)
  }

  lemma ClearedAside(h: Host, e: Encoding, exceptions: seq<Exception>, read: Reader, s: seq<Byte>, i: nat)
    requires SoundHost(h) && ReadsFrom(read, s) && i <= |s| + 1
    ensures AsideIff(h, e, exceptions, read, s, i)
  {
    OperatorIsSome(h, Alternate(e));
    if i <= |s| {
      ApprovedMeans(h, Alternate(e), exceptions, read, s, i);
    }
    AsideMeans(h, e, exceptions, read, s, i);
  }

  ghost predicate SpanIff(h: Host, e: Encoding, exceptions: seq<Exception>, read: Reader, s: seq<Byte>, i: nat) {
    ApprovedSpan(h, e, exceptions, read, i) <==> Cleared(h, e, exceptions, s, i)
  }

  /** From its parts. */
  lemma SpanOf(h: Host, e: Encoding, exceptions: seq<Exception>, read: Reader, s: seq<Byte>, i: nat)
    requires Approved(h, e, exceptions, read, i) <==> Excepted(h, e, exceptions, s, i)
    requires ApprovedGo(h, exceptions, read, i) <==> ExceptedGo(h, exceptions, s, i)
    requires forall j: nat :: j == i + 1 || j == i - 1 ==> AsideIff(h, e, exceptions, read, s, j)
    ensures SpanIff(h, e, exceptions, read, s, i)
  {
    assert AsideIff(h, e, exceptions, read, s, i + 1) && (i > 0 ==> AsideIff(h, e, exceptions, read, s, i - 1));
  }

  /** The approved span is just what has been cleared. */
  lemma SpanMeans(h: Host, e: Encoding, exceptions: seq<Exception>, read: Reader, s: seq<Byte>, i: nat)
    requires SoundHost(h) && ReadsFrom(read, s) && i <= |s|
    ensures SpanIff(h, e, exceptions, read, s, i)
  {
    forall j: nat | j == i + 1 || j == i - 1
      ensures AsideIff(h, e, exceptions, read, s, j)
    {
      ClearedAside(h, e, exceptions, read, s, j);
    }
    ApprovedMeans(h, e, exceptions, read, s, i);
    SpanOf(h, e, exceptions, read, s, i);
  }

  /** The name's place in a text is its first. */
  lemma {:induction false} NameAtFirst(text: seq<CodePoint>, k: nat)
    requires k <= |text| && [121, 101, 118, 103, 101, 116, 109, 97, 110] <= text[k..]
    ensures NameAt(text) <= k && [121, 101, 118, 103, 101, 116, 109, 97, 110] <= text[NameAt(text)..]
  {
    if !(OPERATOR <= text) {
      assert k > 0 && text[1..][k - 1..] == text[k..];
      NameAtFirst(text[1..], k - 1);
      assert text[1..][NameAt(text[1..])..] == text[NameAt(text)..];
    } else {
      assert text[0..] == text;
    }
  }

  // ---- A needle ----

  predicate OtherCase(a: Byte, b: Byte) {
    || ('A' as int <= a <= 'Z' as int && b == a + 32)
    || ('A' as int <= b <= 'Z' as int && a == b + 32)
  }

  /** The bytes stand at `i`, up to the case of ASCII letters where that does not matter. */
  ghost predicate StandsAt(s: seq<Byte>, i: nat, encoded: seq<Byte>, anyCase: bool) {
    && i + |encoded| <= |s|
    && forall k :: 0 <= k < |encoded| ==> s[i + k] == encoded[k] || (anyCase && OtherCase(s[i + k], encoded[k]))
  }

  /** No letter or digit right in front of s[i..j], and none right behind it, nor one of
      `.` `_` `-`. */
  ghost predicate Alone(h: Host, e: Encoding, s: seq<Byte>, i: nat, j: nat)
    requires i <= j <= |s|
  {
    var before, after := Decoding(h, e)(LastOf(s[..i], Unit(e))), Decoding(h, e)(FirstOf(s[j..], Unit(e)));
    && !(i > 0 && before != [] && h.alnum(before))
    && !(j < |s| && after != [] && (h.alnum(after) || after == [46] || after == [95] || after == [45]))
  }

  /** The needle stands at `i`, and counts for its rule there. */
  ghost predicate Counts(h: Host, p: Policy, e: Encoding, rule: string, needle: seq<CodePoint>, s: seq<Byte>, i: nat) {
    var encoded := h.encode(e, needle);
    && StandsAt(s, i, encoded, rule in p.insensitive)
    && (rule == "private-checkout" ==> Alone(h, e, s, i, i + |encoded|))
    && (rule == "operator-namespace" ==> !Cleared(h, e, p.exceptions, s, i))
  }

  lemma CaseMeans(a: Byte, b: Byte)
    ensures Lower(a) == Lower(b) <==> a == b || OtherCase(a, b)
  {}

  lemma StandsIff(q: Pattern, s: seq<Byte>, i: nat)
    ensures OccursAt(q, s, i) <==> StandsAt(s, i, q.needle, q.folded)
  {
    if i + |q.needle| <= |s| {
      forall k | 0 <= k < |q.needle|
        ensures Same(q, s[i + k], q.needle[k]) <==>
          s[i + k] == q.needle[k] || (q.folded && OtherCase(s[i + k], q.needle[k]))
      {
        CaseMeans(s[i + k], q.needle[k]);
      }
    }
  }

  lemma AloneIff(h: Host, e: Encoding, s: seq<Byte>, i: nat, needle: seq<Byte>, folded: bool)
    requires SoundHost(h) && i + |needle| <= |s|
    ensures PrivateCheckout(Decoding(h, e), Unit(e), h.alnum, needle, folded).decide(s, i)
      <==> Alone(h, e, s, i, i + |needle|)
  {
    var j := i + |needle|;
    assert Decoding(h, e)([]) == [];
    assert Behind(s, i, Unit(e)) == LastOf(s[..i], Unit(e));
    assert Clip(s, j, Unit(e)) == FirstOf(s[j..], Unit(e));
  }

  lemma NamespaceIff(h: Host, e: Encoding, exceptions: seq<Exception>, needle: seq<Byte>, folded: bool, s: seq<Byte>,
      i: nat)
    requires SoundHost(h) && i <= |s|
    ensures OperatorNamespace(h, e, exceptions, needle, folded).decide(s, i) <==> !Cleared(h, e, exceptions, s, i)
  {
    SlicesRead(s);
    SpanMeans(h, e, exceptions, Slices(s), s, i);
  }

  lemma CheckoutHits(h: Host, p: Policy, e: Encoding, needle: seq<CodePoint>, s: seq<Byte>, i: nat)
    requires SoundHost(h)
    ensures Hit(NeedlePattern(h, p, e, "private-checkout", needle), s, i)
      <==> Counts(h, p, e, "private-checkout", needle, s, i)
  {
    var q := NeedlePattern(h, p, e, "private-checkout", needle);
    StandsIff(q, s, i);
    if i + |q.needle| <= |s| {
      AloneIff(h, e, s, i, q.needle, q.folded);
    }
  }

  lemma NamespaceHits(h: Host, p: Policy, e: Encoding, needle: seq<CodePoint>, s: seq<Byte>, i: nat)
    requires SoundHost(h)
    ensures Hit(NeedlePattern(h, p, e, "operator-namespace", needle), s, i)
      <==> Counts(h, p, e, "operator-namespace", needle, s, i)
  {
    var q := NeedlePattern(h, p, e, "operator-namespace", needle);
    StandsIff(q, s, i);
    if i <= |s| {
      NamespaceIff(h, e, p.exceptions, q.needle, q.folded, s, i);
    }
  }

  /** A needle's pattern hits just where the needle counts. */
  lemma NeedleHits(h: Host, p: Policy, e: Encoding, rule: string, needle: seq<CodePoint>, s: seq<Byte>, i: nat)
    requires SoundHost(h)
    ensures Hit(NeedlePattern(h, p, e, rule, needle), s, i) <==> Counts(h, p, e, rule, needle, s, i)
  {
    if rule == "private-checkout" {
      CheckoutHits(h, p, e, needle, s, i);
    } else if rule == "operator-namespace" {
      NamespaceHits(h, p, e, needle, s, i);
    } else {
      StandsIff(NeedlePattern(h, p, e, rule, needle), s, i);
    }
  }

  // ---- A home ----

  /** A slash, white space, a control character, a quote, an angle bracket, a colon or a
      semicolon. */
  predicate EndsAccount(c: CodePoint) {
    || c <= ' ' as int || c == '/' as int || c == '"' as int || c == '\'' as int || c == '<' as int || c == '>' as int
    || c == ':' as int || c == ';' as int
    || c == 0x85 || c == 0xa0 || c == 0x1680 || 0x2000 <= c <= 0x200a || c == 0x2028 || c == 0x2029 || c == 0x202f
    || c == 0x205f || c == 0x3000
  }

  /** The first `n` characters are an account, and it is not the runner's. */
  ghost predicate AccountOf(text: seq<CodePoint>, n: nat) {
    && 0 < n <= |text| && (forall k :: 0 <= k < n ==> !EndsAccount(text[k]))
    && (n < |text| ==> EndsAccount(text[n])) && text[..n] != [114, 117, 110, 110, 101, 114]
  }

  ghost predicate HasAccount(text: seq<CodePoint>) {
    exists n: nat :: AccountOf(text, n)
  }

  /** `/Users/` or `/home/` stands at `i`, and within 2048 units behind it an account. */
  ghost predicate HomeAt(h: Host, e: Encoding, root: seq<CodePoint>, s: seq<Byte>, i: nat) {
    && (root == [47, 85, 115, 101, 114, 115, 47] || root == [47, 104, 111, 109, 101, 47])
    && StandsAt(s, i, h.encode(e, root), false)
    && HasAccount(Decoding(h, e)(FirstOf(s[i + |h.encode(e, root)|..], 2048 * Unit(e))))
  }

  lemma BuilderMeans(text: seq<CodePoint>)
    ensures NamesBuilder(text) <==> HasAccount(text)
  {
    var account := Account(text);
    assert forall c: CodePoint :: Stops(c) <==> EndsAccount(c);
    assert forall k :: 0 <= k < |account| ==> text[k] == account[k] && account[k] in account;
    if NamesBuilder(text) {
      assert AccountOf(text, |account|);
    }
    if n: nat :| AccountOf(text, n) {
      AccountLength(text, n);
    }
  }

  lemma {:induction false} AccountLength(text: seq<CodePoint>, n: nat)
    requires n <= |text| && (forall k :: 0 <= k < n ==> !Stops(text[k])) && (n < |text| ==> Stops(text[n]))
    ensures Account(text) == text[..n]
  {
    if n > 0 {
      AccountLength(text[1..], n - 1);
      assert text[..n] == [text[0]] + text[1..][..n - 1];
    }
  }

  lemma HomeDecides(decode: Decoder, unit: nat, root: seq<Byte>, s: seq<Byte>, i: nat)
    requires i + |root| <= |s|
    ensures HomeRoot(decode, unit, root).decide(s, i) <==> HasAccount(decode(FirstOf(s[i + |root|..], 2048 * unit)))
  {
    assert Clip(s, i + |root|, ACCOUNT_UNITS * unit) == FirstOf(s[i + |root|..], 2048 * unit);
    BuilderMeans(decode(FirstOf(s[i + |root|..], 2048 * unit)));
  }

  lemma HomeHits(h: Host, e: Encoding, name: seq<Byte>, s: seq<Byte>, i: nat)
    requires name == USERS || name == HOME
    ensures Hit(HomePattern(h, e, name), s, i) <==> HomeAt(h, e, RootText(name), s, i)
  {
    var root := h.encode(e, RootText(name));
    StandsIff(HomePattern(h, e, name), s, i);
    if i + |root| <= |s| {
      HomeDecides(Decoding(h, e), Unit(e), root, s, i);
    }
  }

  // ---- The whole policy ----

  /** Some needle of the rule counts somewhere, in some encoding. */
  ghost predicate NeedleFound(h: Host, p: Policy, rule: string, s: seq<Byte>) {
    exists e: Encoding, r: Rule, needle: seq<CodePoint>, i: nat ::
      r in p.rules && r.name == rule && needle in r.needles && Counts(h, p, e, rule, needle, s, i)
  }

  ghost predicate HomeFound(h: Host, s: seq<Byte>) {
    exists e: Encoding, root: seq<CodePoint>, i: nat :: HomeAt(h, e, root, s, i)
  }

  lemma {:induction false} BelowIff(patterns: seq<Pattern>, s: seq<Byte>, limit: nat, rule: string)
    ensures rule in RulesBelow(patterns, s, limit)
      <==> exists q :: q in patterns && q.rule == rule && HitBelow(q, s, limit)
  {
    if patterns != [] {
      BelowIff(patterns[1..], s, limit, rule);
      assert forall q :: q in patterns <==> q == patterns[0] || q in patterns[1..];
    }
  }

  lemma {:induction false} NeedlesListed(h: Host, p: Policy, e: Encoding, rule: string, needles: seq<seq<CodePoint>>,
      q: Pattern)
    ensures q in NeedlePatterns(h, p, e, rule, needles)
      <==> exists needle :: needle in needles && q == NeedlePattern(h, p, e, rule, needle)
  {
    if needles != [] {
      NeedlesListed(h, p, e, rule, needles[1..], q);
      assert forall n :: n in needles <==> n == needles[0] || n in needles[1..];
    }
  }

  lemma {:induction false} RulesListed(h: Host, p: Policy, e: Encoding, rules: seq<Rule>, q: Pattern)
    ensures q in RulePatterns(h, p, e, rules)
      <==> exists r, needle :: r in rules && needle in r.needles && q == NeedlePattern(h, p, e, r.name, needle)
  {
    if rules != [] {
      NeedlesListed(h, p, e, rules[0].name, rules[0].needles, q);
      RulesListed(h, p, e, rules[1..], q);
      assert forall r :: r in rules <==> r == rules[0] || r in rules[1..];
    }
  }

  lemma EncodingListed(h: Host, p: Policy, e: Encoding, q: Pattern)
    ensures q in EncodingPatterns(h, p, e) <==>
      || q in RulePatterns(h, p, e, p.rules) || q == HomePattern(h, e, USERS) || q == HomePattern(h, e, HOME)
  {}

  lemma AllListed(h: Host, p: Policy, q: Pattern)
    ensures q in AllPatterns(h, p) <==> exists e: Encoding :: q in EncodingPatterns(h, p, e)
  {
    var all := EncodingPatterns(h, p, EncUtf8) + EncodingPatterns(h, p, EncUtf16Le);
    assert AllPatterns(h, p) == all + EncodingPatterns(h, p, EncUtf16Be);
  }

  /** A pattern of the rule that hits is a needle that counts, or a home. */
  lemma HitMeans(h: Host, p: Policy, q: Pattern, s: seq<Byte>, i: nat)
    requires SoundHost(h) && q in AllPatterns(h, p) && Hit(q, s, i)
    ensures NeedleFound(h, p, q.rule, s) || (q.rule == BUILDER_HOME && HomeFound(h, s))
  {
    AllListed(h, p, q);
    var e: Encoding :| q in EncodingPatterns(h, p, e);
    EncodingListed(h, p, e, q);
    if q in RulePatterns(h, p, e, p.rules) {
      RulesListed(h, p, e, p.rules, q);
      var r, needle :| r in p.rules && needle in r.needles && q == NeedlePattern(h, p, e, r.name, needle);
      NeedleHits(h, p, e, r.name, needle, s, i);
      assert q.rule == r.name;
    } else {
      var name := if q == HomePattern(h, e, USERS) then USERS else HOME;
      HomeHits(h, e, name, s, i);
    }
  }

  lemma NeedleTold(h: Host, p: Policy, e: Encoding, r: Rule, needle: seq<CodePoint>, s: seq<Byte>, i: nat)
      returns (q: Pattern)
    requires SoundHost(h) && SoundPolicy(p) && r in p.rules && needle in r.needles
    requires Counts(h, p, e, r.name, needle, s, i)
    ensures q in AllPatterns(h, p) && q.rule == r.name && HitBelow(q, s, |s|)
  {
    q := NeedlePattern(h, p, e, r.name, needle);
    NeedleHits(h, p, e, r.name, needle, s, i);
    RulesListed(h, p, e, p.rules, q);
    EncodingListed(h, p, e, q);
    AllListed(h, p, q);
    assert SoundNeedle(p, r.name, needle) && |h.encode(e, needle)| > 0;
  }

  lemma RootIs(root: seq<CodePoint>) returns (name: seq<Byte>)
    requires root == [47, 85, 115, 101, 114, 115, 47] || root == [47, 104, 111, 109, 101, 47]
    ensures (name == USERS || name == HOME) && root == RootText(name)
  {
    name := if |root| == 7 then USERS else HOME;
  }

  lemma HomeListed(h: Host, p: Policy, e: Encoding, name: seq<Byte>)
    requires name == USERS || name == HOME
    ensures HomePattern(h, e, name) in AllPatterns(h, p) && HomePattern(h, e, name).rule == BUILDER_HOME
  {
    EncodingListed(h, p, e, HomePattern(h, e, name));
    AllListed(h, p, HomePattern(h, e, name));
  }

  lemma RootEncoded(h: Host, e: Encoding, root: seq<CodePoint>)
    requires SoundHost(h) && root != []
    ensures |h.encode(e, root)| > 0
  {}

  lemma HomeTold(h: Host, p: Policy, e: Encoding, root: seq<CodePoint>, s: seq<Byte>, i: nat) returns (q: Pattern)
    requires HomeAt(h, e, root, s, i) && |h.encode(e, root)| > 0
    ensures q in AllPatterns(h, p) && q.rule == BUILDER_HOME && HitBelow(q, s, |s|)
  {
    var name := RootIs(root);
    q := HomePattern(h, e, name);
    HomeHits(h, e, name, s, i);
    HomeListed(h, p, e, name);
  }

  lemma FoundMeans(h: Host, p: Policy, s: seq<Byte>, rule: string)
    requires SoundHost(h) && SoundPolicy(p) && rule in Whole(AllPatterns(h, p), s)
    ensures NeedleFound(h, p, rule, s) || (rule == "builder-home" && HomeFound(h, s))
  {
    PolicyWhole(h, p, s);
    BelowIff(AllPatterns(h, p), s, |s|, rule);
    var q :| q in AllPatterns(h, p) && q.rule == rule && HitBelow(q, s, |s|);
    var i: nat :| i < |s| && Hit(q, s, i);
    HitMeans(h, p, q, s, i);
  }

  /** What a scan of the whole input answers: a rule is found exactly when a needle of it
      counts somewhere, or, for the builder's home, when such a path stands there. */
  lemma PolicyFinds(h: Host, p: Policy, s: seq<Byte>, rule: string)
    requires SoundHost(h) && SoundPolicy(p)
    ensures rule in Whole(AllPatterns(h, p), s)
      <==> NeedleFound(h, p, rule, s) || (rule == "builder-home" && HomeFound(h, s))
  {
    if rule in Whole(AllPatterns(h, p), s) {
      FoundMeans(h, p, s, rule);
    } else {
      PolicyWhole(h, p, s);
      BelowIff(AllPatterns(h, p), s, |s|, rule);
      if NeedleFound(h, p, rule, s) {
        var e: Encoding, r: Rule, needle: seq<CodePoint>, i: nat :|
          r in p.rules && r.name == rule && needle in r.needles && Counts(h, p, e, rule, needle, s, i);
        var q := NeedleTold(h, p, e, r, needle, s, i);
      }
      if rule == "builder-home" && HomeFound(h, s) {
        var e: Encoding, root: seq<CodePoint>, i: nat :| HomeAt(h, e, root, s, i);
        RootEncoded(h, e, root);
        var q := HomeTold(h, p, e, root, s, i);
      }
    }
  }

  // ---- One occurrence ----

  /** With one exception, whose text stands in UTF-8 between `a` and `b` around the only
      occurrence of the operator's name, nothing is found exactly where it stands free. */
  lemma NamespaceFound(h: Host, x: Exception, a: seq<Byte>, b: seq<Byte>)
    requires SoundHost(h) && x.kind == Namespace
    requires var q := OperatorNamespace(h, EncUtf8, [x], h.encode(EncUtf8, OPERATOR), false);
      1 <= |q.needle| <= REACH && Sole(q, a + h.encode(EncUtf8, x.text) + b, |a| + NameAt(x.text))
    ensures var q := OperatorNamespace(h, EncUtf8, [x], h.encode(EncUtf8, OPERATOR), false);
      Whole([q], a + h.encode(EncUtf8, x.text) + b)
        == if StandsFree(h, EncUtf8, x.text, a, b) then {} else {"operator-namespace"}
  {
    var q := OperatorNamespace(h, EncUtf8, [x], h.encode(EncUtf8, OPERATOR), false);
    var s, i := a + h.encode(EncUtf8, x.text) + b, |a| + NameAt(x.text);
    SoleWhole(q, s, i);
    NamespaceIff(h, EncUtf8, [x], q.needle, false, s, i);
    ClearedOnce(h, x, a, b, s, i);
  }

  lemma ClearedOnce(h: Host, x: Exception, a: seq<Byte>, b: seq<Byte>, s: seq<Byte>, i: nat)
    requires x.kind == Namespace && s == a + h.encode(EncUtf8, x.text) + b && i == |a| + NameAt(x.text)
    ensures Cleared(h, EncUtf8, [x], s, i) <==> StandsFree(h, EncUtf8, x.text, a, b)
  {
    forall u: seq<Byte>, v: seq<Byte> | s == u + h.encode(EncUtf8, x.text) + v && |u| == |a|
      ensures u == a && v == b
    {
      assert u == s[..|a|] == a && v == s[|a| + |h.encode(EncUtf8, x.text)|..] == b;
    }
    assert Published(h, EncUtf8, x, s, i) <==> StandsFree(h, EncUtf8, x.text, a, b);
    assert x in [x] && !Compiled(h, x, s, i);
  }

  /** The only occurrence of a private checkout's needle counts exactly where it is alone. */
  lemma CheckoutFound(h: Host, e: Encoding, needle: seq<Byte>, a: seq<Byte>, b: seq<Byte>)
    requires SoundHost(h) && 1 <= |needle| <= REACH
    requires Sole(PrivateCheckout(Decoding(h, e), Unit(e), h.alnum, needle, false), a + needle + b, |a|)
    ensures Whole([PrivateCheckout(Decoding(h, e), Unit(e), h.alnum, needle, false)], a + needle + b)
      == if Alone(h, e, a + needle + b, |a|, |a| + |needle|) then {"private-checkout"} else {}
  {
    SoleWhole(PrivateCheckout(Decoding(h, e), Unit(e), h.alnum, needle, false), a + needle + b, |a|);
    AloneIff(h, e, a + needle + b, |a|, needle, false);
  }
}
