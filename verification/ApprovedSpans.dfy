/** The spans in which the operator's namespace is approved: published names in text, and
    Go's import-name records and equality symbols. */
module ApprovedSpans {
  import opened Prelude
  import opened Bytes
  import opened Matcher
  import opened ScannerRules
  import opened ScannerHost

  const OPERATOR: seq<CodePoint> := [121, 101, 118, 103, 101, 116, 109, 97, 110]
  const GITHUB: seq<CodePoint> := [103, 105, 116, 104, 117, 98]
  const GITHUB_COM: seq<CodePoint> := GITHUB + [46, 99, 111, 109, 47]
  const AT: nat := 64
  /** `type:.eq.` */
  const EQUALITY: seq<Byte> := [116, 121, 112, 101, 58, 46, 101, 113, 46]
  const MAX_NAME: nat := 1024

  datatype Kind = Namespace | GoImportName | GoEqualitySymbol | OtherKind

  /** An exception of the policy. */
  datatype Exception = Exception(kind: Kind, text: seq<CodePoint>)

  /** str.index of the operator's name. */
  function NameAt(text: seq<CodePoint>): nat {
    if OPERATOR <= text || text == [] then 0 else 1 + NameAt(text[1..])
  }

  /** A slice with its bounds cut to the buffer. */
  function Slice(buf: seq<Byte>, from: nat, to: nat): seq<Byte> {
    if from <= to <= |buf| then buf[from..to] else if from <= |buf| < to then buf[from..] else []
  }

  /** What the decision reads of a buffer: slices. */
  type Reader = (nat, nat) -> seq<Byte>

  function Slices(buf: seq<Byte>): Reader {
    (from: nat, to: nat) => Slice(buf, from, to)
  }

  // ---- Published names in text ----

  /** The bytes in front of `begin` are a Go name's flags and a length of several bytes. */
  predicate BinaryLength(read: Reader, begin: nat) {
    exists width: nat :: 2 <= width <= 5 && LongLength(read, begin, width)
  }

  predicate LongLength(read: Reader, begin: nat, width: nat) {
    && 1 <= width < begin && read(begin - width - 1, begin - width) == [0]
    && AllHigh(read(begin - width, begin - 1))
  }

  predicate AllHigh(field: seq<Byte>) {
    forall b :: b in field ==> b >= 128
  }

  /** The characters around the name do not continue it. */
  predicate Delimited(h: Host, text: seq<CodePoint>, before: seq<CodePoint>, after: seq<CodePoint>) {
    && !(before != [] && (h.alnum(before) || before in [[46], [95], [SLASH], [AT], [45]]))
    && !(after != [] && (h.alnum(after) || after in [[46], [95], [45]]))
    && !(GITHUB <= text && after == [AT])
    && !([AT] <= text && after == [SLASH])
  }

  function Back(i: nat, n: nat): nat {
    if i < n then 0 else i - n
  }

  /** The exception's text starts at `begin`, and stands alone there. */
  predicate TextAt(h: Host, decode: Decoder, unit: nat, x: Exception, token: seq<Byte>, read: Reader, begin: nat) {
    var end := begin + |token|;
    && read(begin, end) == token
    && !(unit == 1 && GITHUB_COM <= x.text && BinaryLength(read, begin))
    && Delimited(h, x.text, decode(read(Back(begin, unit), begin)), decode(read(end, end + unit)))
  }

  predicate InText(h: Host, e: Encoding, x: Exception, read: Reader, i: nat) {
    var offset := NameAt(x.text) * Unit(e);
    && x.kind == Namespace && offset <= i
    && TextAt(h, Decoding(h, e), Unit(e), x, h.encode(e, x.text), read, i - offset)
  }

  predicate Approved(h: Host, e: Encoding, exceptions: seq<Exception>, read: Reader, i: nat) {
    exists x {:trigger InText(h, e, x, read, i)} :: x in exceptions && InText(h, e, x, read, i)
  }

  // ---- Go's records ----

  predicate IsWord(b: Byte) {
    48 <= b <= 57 || 65 <= b <= 90 || 97 <= b <= 122 || b == 95
  }

  predicate IsPath(b: Byte) {
    IsWord(b) || b == 45 || b == SLASH
  }

  /** Parts that each start with `mark`, which is followed by something else. */
  predicate Parts(text: seq<Byte>, mark: Byte) {
    && text != [] && text[0] == mark
    && forall k :: 0 <= k < |text| && text[k] == mark ==> k + 1 < |text| && text[k + 1] != mark
  }

  /** Any number of `/part`s. */
  predicate PathSuffix(text: seq<Byte>) {
    text == [] || (Parts(text, SLASH) && forall b :: b in text ==> IsPath(b))
  }

  /** One or more `.name`s. */
  predicate TypeSuffix(text: seq<Byte>) {
    Parts(text, 46) && forall b :: b in text ==> IsWord(b) || b == 46
  }

  /** Nothing, or a middle dot and digits. */
  predicate ScopeSuffix(text: seq<Byte>) {
    text == [] || (|text| > 2 && text[..2] == [0xc2, 0xb7] && forall b :: b in text[2..] ==> 48 <= b <= 57)
  }

  predicate SymbolParts(text: seq<Byte>, a: nat, b: nat) {
    0 < a <= b <= |text| && PathSuffix(text[..a]) && TypeSuffix(text[a..b]) && ScopeSuffix(text[b..])
  }

  predicate SymbolSuffix(text: seq<Byte>) {
    exists a: nat, b: nat :: a <= |text| && b <= |text| && SymbolParts(text, a, b)
  }

  function FirstNul(text: seq<Byte>): (at: Option<nat>)
    ensures at.Some? ==> at.value < |text| && text[at.value] == 0
  {
    if text == [] then None
    else if text[0] == 0 then Some(0)
    else
      var at := FirstNul(text[1..]);
      if at.Some? then Some(at.value + 1) else None
  }

  /** A compiler symbol between two NULs. */
  predicate IsSymbol(token: seq<Byte>, read: Reader, begin: nat) {
    && |EQUALITY| <= begin
    && var start := begin - |EQUALITY|;
       && read(start, begin) == EQUALITY && (start > 0 ==> read(start - 1, start) == [0])
       && var symbol := read(begin, begin + MAX_NAME + 1);
          FirstNul(symbol).Some? && SymbolSuffix(Slice(symbol, |token|, FirstNul(symbol).value))
  }

  /** An unsigned varint in one or two bytes. */
  function Varint(field: seq<Byte>): (n: nat)
    requires 1 <= |field| <= 2
  {
    var low: nat, high: nat := field[0] % 128, if |field| == 1 then 0 else field[1] % 128;
    low + 128 * high
  }

  /** Each byte but the last has its high bit set. */
  predicate IsVarint(field: seq<Byte>) {
    && 1 <= |field| <= 2 && field[|field| - 1] < 128
    && (|field| == 2 ==> field[0] >= 128)
  }

  /** The name goes on behind its record. */
  predicate GoesOn(next: seq<Byte>) {
    next != [] && (IsPath(next[0]) || next[0] in [46, AT])
  }

  /** A record with no flags, a canonical length in `width` bytes, and the whole name. */
  predicate IsRecord(token: seq<Byte>, read: Reader, begin: nat, width: nat) {
    && 1 <= width < begin && read(begin - width - 1, begin - width) == [0]
    && var field := read(begin - width, begin);
       && IsVarint(field) && Varint(field) <= MAX_NAME && |token| <= Varint(field)
       && (width > 1 ==> Varint(field) >= 128)
       && IsName(token, read, begin, Varint(field))
  }

  predicate IsName(token: seq<Byte>, read: Reader, begin: nat, length: nat) {
    var name := read(begin, begin + length);
    && |name| == length && |token| <= length && PathSuffix(name[|token|..])
    && !GoesOn(read(begin + length, begin + length + 1))
  }

  /** The exception's text starts at `begin`, in a record of its kind. */
  predicate GoAt(x: Exception, token: seq<Byte>, read: Reader, begin: nat) {
    && read(begin, begin + |token|) == token
    && match x.kind
       case GoEqualitySymbol => IsSymbol(token, read, begin)
       case GoImportName => IsRecord(token, read, begin, 1) || IsRecord(token, read, begin, 2)
       case _ => false
  }

  predicate InGo(h: Host, x: Exception, read: Reader, i: nat) {
    NameAt(x.text) <= i && GoAt(x, h.encode(EncUtf8, x.text), read, i - NameAt(x.text))
  }

  predicate ApprovedGo(h: Host, exceptions: seq<Exception>, read: Reader, i: nat) {
    exists x {:trigger InGo(h, x, read, i)} :: x in exceptions && InGo(h, x, read, i)
  }

  // ---- The span ----

  function Alternate(e: Encoding): Encoding {
    if e.EncUtf16Le? then EncUtf16Be else EncUtf16Le
  }

  /** The name in the other byte order, one byte aside. */
  predicate ApprovedAside(h: Host, e: Encoding, exceptions: seq<Exception>, read: Reader, i: nat) {
    var other := h.encode(Alternate(e), OPERATOR);
    read(i, i + |other|) == other && Approved(h, Alternate(e), exceptions, read, i)
  }

  /** Approved as it stands, as Go writes it, or in the other byte order one byte aside. */
  predicate ApprovedSpan(h: Host, e: Encoding, exceptions: seq<Exception>, read: Reader, i: nat) {
    || Approved(h, e, exceptions, read, i)
    || (e.EncUtf8? && ApprovedGo(h, exceptions, read, i))
    || (!e.EncUtf8? && ((i > 0 && ApprovedAside(h, e, exceptions, read, i - 1))
                        || ApprovedAside(h, e, exceptions, read, i + 1)))
  }

  function NotApproved(h: Host, e: Encoding, exceptions: seq<Exception>): (Reader, nat) -> bool {
    (read: Reader, i: nat) => !ApprovedSpan(h, e, exceptions, read, i)
  }

  /** A pattern whose decision reads slices of the buffer. */
  function Reading(rule: string, needle: seq<Byte>, folded: bool, verdict: (Reader, nat) -> bool): Pattern {
    Pattern(rule, needle, folded, (buf: seq<Byte>, i: nat) => verdict(Slices(buf), i))
  }

  /** An occurrence counts unless it lies in an approved span. */
  function OperatorNamespace(h: Host, e: Encoding, exceptions: seq<Exception>, needle: seq<Byte>, folded: bool)
    : Pattern
  {
    Reading("operator-namespace", needle, folded, NotApproved(h, e, exceptions))
  }

  // ---- How far it reads ----

  const MAX_EXCEPTION: nat := 120

  predicate ShortExceptions(exceptions: seq<Exception>) {
    forall x :: x in exceptions ==> |x.text| <= MAX_EXCEPTION
  }

  /** What is read of the exception's text and around it fits the window. */
  ghost predicate Fits(h: Host, e: Encoding, x: Exception) {
    NameAt(x.text) * Unit(e) + 16 <= LOOK_BACK && |h.encode(e, x.text)| + 16 <= HELD_BACK
  }

  lemma {:induction false} NameWithin(text: seq<CodePoint>)
    ensures NameAt(text) <= |text|
  {
    if text != [] && !(OPERATOR <= text) {
      NameWithin(text[1..]);
    }
  }

  ghost predicate FitsAny(h: Host, x: Exception) {
    forall e: Encoding :: Fits(h, e, x)
  }

  /** All exceptions fit, and so does the name one byte aside. */
  ghost predicate AllFit(h: Host, exceptions: seq<Exception>) {
    && (forall x :: x in exceptions ==> FitsAny(h, x))
    && forall e: Encoding :: |h.encode(e, OPERATOR)| <= HELD_BACK
  }

  lemma ShortFit(h: Host, exceptions: seq<Exception>)
    requires SoundHost(h) && ShortExceptions(exceptions)
    ensures AllFit(h, exceptions)
  {
    forall x | x in exceptions
      ensures FitsAny(h, x)
    {
      NameWithin(x.text);
    }
  }

  /** The reader `a` of a buffer that starts at `lo` reads the same as `b` does. */
  ghost predicate ReadsSame(a: Reader, b: Reader, lo: nat, from: nat, to: nat) {
    lo <= from && lo <= to && a(from - lo, to - lo) == b(from, to)
  }

  ghost predicate SameReads(a: Reader, b: Reader, lo: nat, end: nat) {
    forall from: nat, to: nat :: lo <= from <= to <= end ==> ReadsSame(a, b, lo, from, to)
  }

  /** All that is read around the start of an exception's text is read the same. */
  ghost predicate SameText(a: Reader, b: Reader, lo: nat, end: nat, begin: nat, length: nat) {
    && SameReads(a, b, lo, end) && lo <= begin && (lo == 0 || lo + 15 <= begin)
    && begin + MAX_NAME + 2 <= end && begin + length + 2 <= end
  }

  lemma SameLength(a: Reader, b: Reader, lo: nat, end: nat, begin: nat, width: nat)
    requires SameText(a, b, lo, end, begin, 0) && width <= 5
    ensures LongLength(a, begin - lo, width) == LongLength(b, begin, width)
  {
    if 1 <= width < begin - lo {
      assert ReadsSame(a, b, lo, begin - width - 1, begin - width);
      assert ReadsSame(a, b, lo, begin - width, begin - 1);
    }
  }

  lemma SameBinary(a: Reader, b: Reader, lo: nat, end: nat, begin: nat)
    requires SameText(a, b, lo, end, begin, 0)
    ensures BinaryLength(a, begin - lo) == BinaryLength(b, begin)
  {
    var at := begin - lo;
    forall width: nat | 2 <= width <= 5
      ensures LongLength(a, at, width) == LongLength(b, begin, width)
    {
      SameLength(a, b, lo, end, begin, width);
    }
  }

  lemma SameTextAt(h: Host, decode: Decoder, unit: nat, x: Exception, token: seq<Byte>, a: Reader, b: Reader, lo: nat,
      end: nat, begin: nat)
    requires SameText(a, b, lo, end, begin, |token|) && 1 <= unit <= 2
    ensures TextAt(h, decode, unit, x, token, a, begin - lo) == TextAt(h, decode, unit, x, token, b, begin)
  {
    var stop := begin + |token|;
    SameBinary(a, b, lo, end, begin);
    assert ReadsSame(a, b, lo, begin, stop) && ReadsSame(a, b, lo, stop, stop + unit);
    assert ReadsSame(a, b, lo, Back(begin, unit), begin) && Back(begin - lo, unit) == Back(begin, unit) - lo;
  }

  lemma SameInText(h: Host, e: Encoding, x: Exception, a: Reader, b: Reader, lo: nat, end: nat, at: nat, i: nat)
    requires SameReads(a, b, lo, end) && Fits(h, e, x) && lo + at == i && i + HELD_BACK <= end
    requires lo == 0 || lo + LOOK_BACK <= i + 1
    ensures InText(h, e, x, a, at) == InText(h, e, x, b, i)
  {
    var offset := NameAt(x.text) * Unit(e);
    if offset <= i {
      assert at - offset == (i - offset) - lo;
      SameTextAt(h, Decoding(h, e), Unit(e), x, h.encode(e, x.text), a, b, lo, end, i - offset);
    }
  }

  lemma SameSymbol(token: seq<Byte>, a: Reader, b: Reader, lo: nat, end: nat, begin: nat)
    requires SameText(a, b, lo, end, begin, 0)
    ensures IsSymbol(token, a, begin - lo) == IsSymbol(token, b, begin)
  {
    assert ReadsSame(a, b, lo, begin, begin + MAX_NAME + 1);
    if |EQUALITY| <= begin - lo {
      var start := begin - |EQUALITY|;
      assert ReadsSame(a, b, lo, start, begin);
      assert start > lo ==> ReadsSame(a, b, lo, start - 1, start);
    }
  }

  lemma SameRecord(token: seq<Byte>, a: Reader, b: Reader, lo: nat, end: nat, begin: nat, width: nat)
    requires SameText(a, b, lo, end, begin, 0) && width <= 2
    ensures IsRecord(token, a, begin - lo, width) == IsRecord(token, b, begin, width)
  {
    if 1 <= width < begin - lo {
      assert ReadsSame(a, b, lo, begin - width - 1, begin - width) && ReadsSame(a, b, lo, begin - width, begin);
      var field := b(begin - width, begin);
      if IsVarint(field) && Varint(field) <= MAX_NAME {
        SameName(token, a, b, lo, end, begin, Varint(field));
      }
    }
  }

  lemma SameName(token: seq<Byte>, a: Reader, b: Reader, lo: nat, end: nat, begin: nat, length: nat)
    requires SameText(a, b, lo, end, begin, 0) && length <= MAX_NAME
    ensures IsName(token, a, begin - lo, length) == IsName(token, b, begin, length)
  {
    assert ReadsSame(a, b, lo, begin, begin + length);
    assert ReadsSame(a, b, lo, begin + length, begin + length + 1);
  }

  lemma SameGoAt(x: Exception, token: seq<Byte>, a: Reader, b: Reader, lo: nat, end: nat, begin: nat)
    requires SameText(a, b, lo, end, begin, |token|)
    ensures GoAt(x, token, a, begin - lo) == GoAt(x, token, b, begin)
  {
    assert ReadsSame(a, b, lo, begin, begin + |token|);
    SameSymbol(token, a, b, lo, end, begin);
    SameRecord(token, a, b, lo, end, begin, 1);
    SameRecord(token, a, b, lo, end, begin, 2);
  }

  lemma SameInGo(h: Host, x: Exception, a: Reader, b: Reader, lo: nat, end: nat, at: nat, i: nat)
    requires SameReads(a, b, lo, end) && Fits(h, EncUtf8, x) && lo + at == i && i + HELD_BACK <= end
    requires lo == 0 || lo + LOOK_BACK <= i + 1
    ensures InGo(h, x, a, at) == InGo(h, x, b, i)
  {
    var offset := NameAt(x.text);
    if offset <= i {
      assert at - offset == (i - offset) - lo;
      SameGoAt(x, h.encode(EncUtf8, x.text), a, b, lo, end, i - offset);
    }
  }

  lemma SameApproved(h: Host, e: Encoding, exceptions: seq<Exception>, a: Reader, b: Reader, lo: nat, end: nat,
      at: nat, i: nat)
    requires AllFit(h, exceptions) && SameReads(a, b, lo, end) && lo + at == i && i + HELD_BACK <= end
    requires lo == 0 || lo + LOOK_BACK <= i + 1
    ensures Approved(h, e, exceptions, a, at) == Approved(h, e, exceptions, b, i)
  {
    forall x | x in exceptions
      ensures InText(h, e, x, a, at) == InText(h, e, x, b, i)
    {
      assert FitsAny(h, x) && Fits(h, e, x);
      SameInText(h, e, x, a, b, lo, end, at, i);
    }
  }

  lemma SameApprovedGo(h: Host, exceptions: seq<Exception>, a: Reader, b: Reader, lo: nat, end: nat, at: nat, i: nat)
    requires AllFit(h, exceptions) && SameReads(a, b, lo, end) && lo + at == i && i + HELD_BACK <= end
    requires lo == 0 || lo + LOOK_BACK <= i + 1
    ensures ApprovedGo(h, exceptions, a, at) == ApprovedGo(h, exceptions, b, i)
  {
    forall x | x in exceptions
      ensures InGo(h, x, a, at) == InGo(h, x, b, i)
    {
      assert FitsAny(h, x) && Fits(h, EncUtf8, x);
      SameInGo(h, x, a, b, lo, end, at, i);
    }
  }

  lemma SameAside(h: Host, e: Encoding, exceptions: seq<Exception>, a: Reader, b: Reader, lo: nat, end: nat,
      at: nat, i: nat)
    requires AllFit(h, exceptions) && SameReads(a, b, lo, end) && lo + at == i && i + HELD_BACK <= end
    requires lo == 0 || lo + LOOK_BACK <= i + 1
    ensures ApprovedAside(h, e, exceptions, a, at) == ApprovedAside(h, e, exceptions, b, i)
  {
    assert ReadsSame(a, b, lo, i, i + |h.encode(Alternate(e), OPERATOR)|);
    SameApproved(h, Alternate(e), exceptions, a, b, lo, end, at, i);
  }

  lemma SameSpan(h: Host, e: Encoding, exceptions: seq<Exception>, a: Reader, b: Reader, lo: nat, end: nat,
      at: nat, i: nat)
    requires AllFit(h, exceptions) && SameReads(a, b, lo, end) && lo + at == i && i + REACH <= end
    requires lo == 0 || lo + LOOK_BACK <= i
    ensures ApprovedSpan(h, e, exceptions, a, at) == ApprovedSpan(h, e, exceptions, b, i)
  {
    SameApproved(h, e, exceptions, a, b, lo, end, at, i);
    SameApprovedGo(h, exceptions, a, b, lo, end, at, i);
    SameAside(h, e, exceptions, a, b, lo, end, at + 1, i + 1);
    if at > 0 {
      SameAside(h, e, exceptions, a, b, lo, end, at - 1, i - 1);
    }
  }

  lemma SlicesSame(s: seq<Byte>, lo: nat, hi: nat, end: nat)
    requires lo <= hi <= |s| && (hi == |s| || end <= hi)
    ensures SameReads(Slices(s[lo..hi]), Slices(s), lo, end)
  {
    forall from: nat, to: nat | lo <= from <= to <= end
      ensures ReadsSame(Slices(s[lo..hi]), Slices(s), lo, from, to)
    {
      SliceShown(s, lo, hi, from, to);
    }
  }

  lemma SliceShown(s: seq<Byte>, lo: nat, hi: nat, from: nat, to: nat)
    requires lo <= from <= to && lo <= hi <= |s| && (hi == |s| || to <= hi)
    ensures Slice(s[lo..hi], from - lo, to - lo) == Slice(s, from, to)
  {
    if to <= hi {
      SliceOfSlice(s, lo, hi, from, to);
    } else if from <= hi {
      SliceOfSlice(s, lo, hi, from, hi);
    }
  }

  /** The verdict is the same through readers that read the same from 256 bytes behind the
      index to 4097 from it on. */
  ghost predicate Windowed(verdict: (Reader, nat) -> bool) {
    forall a: Reader, b: Reader, lo: nat, at: nat, i: nat :: SameWindow(a, b, lo, at, i) ==>
      verdict(a, at) == verdict(b, i)
  }

  ghost predicate SameWindow(a: Reader, b: Reader, lo: nat, at: nat, i: nat) {
    lo + at == i && (lo == 0 || LOOK_BACK <= at) && SameReads(a, b, lo, i + REACH)
  }

  lemma WindowedLocal(rule: string, needle: seq<Byte>, folded: bool, verdict: (Reader, nat) -> bool, s: seq<Byte>)
    requires Windowed(verdict)
    ensures Local(Reading(rule, needle, folded, verdict), s)
  {
    var p := Reading(rule, needle, folded, verdict);
    forall lo: nat, hi: nat, i: nat | InView(p, s, lo, hi, i)
      ensures SameVerdict(p, s, lo, hi, i)
    {
      SlicesSame(s, lo, hi, i + REACH);
      assert SameWindow(Slices(s[lo..hi]), Slices(s), lo, i - lo, i);
    }
    assert forall lo: nat, hi: nat :: Agrees(p, s, lo, hi);
  }

  lemma SameVerdictOf(h: Host, e: Encoding, exceptions: seq<Exception>, a: Reader, b: Reader, lo: nat, at: nat, i: nat)
    requires AllFit(h, exceptions) && SameWindow(a, b, lo, at, i)
    ensures NotApproved(h, e, exceptions)(a, at) == NotApproved(h, e, exceptions)(b, i)
  {
    SameSpan(h, e, exceptions, a, b, lo, i + REACH, at, i);
  }

  /** The decision reads at most 256 bytes behind the occurrence and 4097 from it on. */
  lemma SpanWindowed(h: Host, e: Encoding, exceptions: seq<Exception>)
    requires SoundHost(h) && ShortExceptions(exceptions)
    ensures Windowed(NotApproved(h, e, exceptions))
  {
    var verdict := NotApproved(h, e, exceptions);
    ShortFit(h, exceptions);
    forall a: Reader, b: Reader, lo: nat, at: nat, i: nat | SameWindow(a, b, lo, at, i)
      ensures verdict(a, at) == verdict(b, i)
    {
      SameVerdictOf(h, e, exceptions, a, b, lo, at, i);
    }
  }

  /** So the rule on the operator's namespace fits the matcher's window. */
  lemma OperatorNamespaceTame(h: Host, e: Encoding, exceptions: seq<Exception>, needle: seq<Byte>, folded: bool,
      s: seq<Byte>)
    requires SoundHost(h) && ShortExceptions(exceptions)
    requires 1 <= |needle| <= REACH && BorderFree(OperatorNamespace(h, e, exceptions, needle, folded))
    ensures Tame(OperatorNamespace(h, e, exceptions, needle, folded), s)
  {
    SpanWindowed(h, e, exceptions);
    WindowedLocal("operator-namespace", needle, folded, NotApproved(h, e, exceptions), s);
    BorderFreeWins(OperatorNamespace(h, e, exceptions, needle, folded), s);
  }

  // ---- One record ----

  /** The name's bytes behind the token are those of a path. */
  lemma PathOnly(token: seq<Byte>, buf: seq<Byte>, begin: nat, length: nat, k: nat)
    requires IsName(token, Slices(buf), begin, length) && |token| <= k < length
    ensures begin + length <= |buf| && IsPath(buf[begin + k])
  {
    var name := Slice(buf, begin, begin + length);
    assert name[|token|..][k - |token|] == buf[begin + k] && buf[begin + k] in name[|token|..];
  }

  lemma NotShorter(token: seq<Byte>, buf: seq<Byte>, begin: nat, m: nat, n: nat)
    requires IsName(token, Slices(buf), begin, m) && IsName(token, Slices(buf), begin, n)
    ensures m >= n
  {
    if m < n {
      PathOnly(token, buf, begin, n, m);
      assert false;
    }
  }

  /** Whatever length a record in front of a name claims, at most one is accepted: with a
      shorter one the path goes on behind the name, with a longer one it has ended. */
  lemma OneLength(token: seq<Byte>, buf: seq<Byte>, begin: nat, m: nat, n: nat)
    requires IsName(token, Slices(buf), begin, m) && IsName(token, Slices(buf), begin, n)
    ensures m == n
  {
    NotShorter(token, buf, begin, m, n);
    NotShorter(token, buf, begin, n, m);
  }

  /** So at most one of the two widths of a length is accepted in front of a name. */
  lemma OneRecord(token: seq<Byte>, buf: seq<Byte>, begin: nat)
    ensures !(IsRecord(token, Slices(buf), begin, 1) && IsRecord(token, Slices(buf), begin, 2))
  {
    if IsRecord(token, Slices(buf), begin, 1) && IsRecord(token, Slices(buf), begin, 2) {
      var m, n := Varint(Slices(buf)(begin - 1, begin)), Varint(Slices(buf)(begin - 2, begin));
      OneLength(token, buf, begin, m, n);
      assert false;
    }
  }
}
