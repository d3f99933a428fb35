/** Escaped inventory paths: the scanner prints them with Python's unicode_escape,
    the release check reads them back in JavaScript, as UTF-16 code units. */
module SafePaths {
  import opened Prelude
  import opened Bytes

  const MAX_CODE_POINT: nat := 0x10ffff
  const SAFE_CHARS: nat := 1024

  type CodePoint = n: nat | n <= 0x10ffff
  type CodeUnit = n: nat | n <= 0xffff

  // ---- Hexadecimal ----

  function Digit(d: nat): (c: char)
    requires d < 16
    ensures '0' <= c <= '9' || 'a' <= c <= 'f'
    ensures DigitValue(c) == Some(d)
  {
    if d < 10 then '0' + d as char else 'a' + (d - 10) as char
  }

  function DigitValue(c: char): (v: Option<nat>)
    ensures v.Some? ==> v.value < 16
  {
    if '0' <= c <= '9' then Some((c - '0') as nat)
    else if 'a' <= c <= 'f' then Some((c - 'a') as nat + 10)
    else if 'A' <= c <= 'F' then Some((c - 'A') as nat + 10)
    else None
  }

  function Power16(width: nat): (p: nat)
    ensures p > 0
  {
    if width == 0 then 1 else 16 * Power16(width - 1)
  }

  /** `width` lower-case digits, most significant first. */
  function Hex(n: nat, width: nat): (digits: string)
    requires n < Power16(width)
    ensures |digits| == width
  {
    if width == 0 then "" else Hex(n / 16, width - 1) + [Digit(n % 16)]
  }

  /** Number.parseInt(digits, 16), if these are all digits. */
  function ParseHex(digits: string): Option<nat> {
    if digits == "" then Some(0) else
    var high, low := ParseHex(digits[..|digits| - 1]), DigitValue(digits[|digits| - 1]);
    if high.Some? && low.Some? then Some(high.value * 16 + low.value) else None
  }

  lemma {:induction false} HexParses(n: nat, width: nat)
    requires n < Power16(width)
    ensures ParseHex(Hex(n, width)) == Some(n)
  {
    if width > 0 {
      var digits := Hex(n, width);
      assert digits[..|digits| - 1] == Hex(n / 16, width - 1);
      HexParses(n / 16, width - 1);
    }
  }

  const LOWER: string := "0123456789abcdef"
  const UPPER: string := "0123456789ABCDEF"

  lemma DigitsMean(c: char, d: nat)
    requires d < 16
    ensures DigitValue(c) == Some(d) <==> c == LOWER[d] || c == UPPER[d]
    ensures Digit(d) == LOWER[d]
  {}

  lemma HexWidths()
    ensures Power16(2) == 0x100 && Power16(4) == 0x1_0000 && Power16(8) == 0x1_0000_0000
  {
    assert Power16(2) == 16 * Power16(1);
    assert Power16(4) == 16 * (16 * Power16(2));
    assert Power16(8) == 16 * (16 * (16 * (16 * Power16(4))));
  }

  // ---- Printing ----

  /** How unicode_escape prints one code point. */
  function EscapeOne(c: CodePoint): (text: string)
    ensures text != ""
  {
    HexWidths();
    if c == 0x5c then "\\\\"
    else if c == 9 then "\\t"
    else if c == 10 then "\\n"
    else if c == 13 then "\\r"
    else if 0x20 <= c < 0x7f then [c as char]
    else if c < 0x100 then "\\x" + Hex(c, 2)
    else if c < 0x1_0000 then "\\u" + Hex(c, 4)
    else "\\U" + Hex(c, 8)
  }

  function Escape(s: seq<CodePoint>): string {
    if s == [] then "" else EscapeOne(s[0]) + Escape(s[1..])
  }

  /** `_safe`: private markers replaced, escaped, and cut to 1024 characters. */
  function Safe(redact: seq<CodePoint> -> seq<CodePoint>, s: seq<CodePoint>): (text: string)
    ensures |text| <= SAFE_CHARS
  {
    var text := Escape(redact(s));
    if |text| <= SAFE_CHARS then text else text[..SAFE_CHARS]
  }

  // ---- Reading back ----

  /** String.fromCodePoint: one unit, or a surrogate pair. */
  function Units(c: CodePoint): seq<CodeUnit> {
    if c < 0x1_0000 then [c] else [0xd800 + (c - 0x1_0000) / 0x400, 0xdc00 + (c - 0x1_0000) % 0x400]
  }

  /** The code units of a whole string. */
  function AllUnits(s: seq<CodePoint>): seq<CodeUnit> {
    if s == [] then [] else Units(s[0]) + AllUnits(s[1..])
  }

  function Short(c: char): Option<CodePoint> {
    match c
    case '\\' => Some(0x5c)
    case 'a' => Some(7)
    case 'b' => Some(8)
    case 'f' => Some(12)
    case 'n' => Some(10)
    case 'r' => Some(13)
    case 't' => Some(9)
    case 'v' => Some(11)
    case _ => None
  }

  const CONTROLS: string := "abtnvfr"

  /** Backslash for itself, and the letters for BEL to CR in order. */
  lemma ShortMeans(c: char, n: CodePoint)
    ensures Short(c) == Some(n) <==> (c == '\\' && n == 0x5c) || (7 <= n <= 13 && c == CONTROLS[n - 7])
  {}

  /** A unit below 0x10000 is the code point; a pair has ten bits of it in each. */
  lemma UnitsRead(c: CodePoint)
    ensures c <= 0xffff ==> Units(c) == [c]
    ensures c > 0xffff ==> exists high, low ::
      && Units(c) == [high, low] && 0xd800 <= high <= 0xdbff && 0xdc00 <= low <= 0xdfff
      && c == 0x1_0000 + 0x400 * (high - 0xd800) + (low - 0xdc00)
  {
    if c > 0xffff {
      var d := c - 0x1_0000;
      assert d == 0x400 * (d / 0x400) + d % 0x400;
      assert Units(c) == [Units(c)[0], Units(c)[1]];
    }
  }

  datatype EscapeMatch = EscapeMatch(value: nat, length: nat)

  /** A letter followed by exactly `width` hexadecimal digits. */
  function WideEscape(text: string, letter: char, width: nat): Option<EscapeMatch>
    requires |text| >= 1
  {
    if |text| < 2 + width || text[1] != letter then None else
    var n := ParseHex(text[2..2 + width]);
    if n.None? then None else Some(EscapeMatch(n.value, 2 + width))
  }

  /** The regular expression of `originalPath` at a backslash. */
  function MatchEscape(text: string): (m: Option<EscapeMatch>)
    requires text != "" && text[0] == '\\'
    ensures m.Some? ==> 2 <= m.value.length <= |text|
  {
    var wide, unicode, byte := WideEscape(text, 'U', 8), WideEscape(text, 'u', 4), WideEscape(text, 'x', 2);
    if wide.Some? then wide
    else if unicode.Some? then unicode
    else if byte.Some? then byte
    else if |text| >= 2 && Short(text[1]).Some? then Some(EscapeMatch(Short(text[1]).value, 2))
    else None
  }

  /** `originalPath`; fromCodePoint throws beyond the last code point. */
  function OriginalPath(text: string): Option<seq<CodeUnit>>
    decreases |text|
  {
    if text == "" then Some([]) else
    var m := if text[0] == '\\' then MatchEscape(text) else None;
    if m.None? then
      var rest := OriginalPath(text[1..]);
      if rest.None? then None else Some(Units(text[0] as int) + rest.value)
    else if m.value.value > MAX_CODE_POINT then None
    else
      var rest := OriginalPath(text[m.value.length..]);
      if rest.None? then None else Some(Units(m.value.value) + rest.value)
  }

  lemma WideMatches(c: CodePoint, letter: char, width: nat, rest: string)
    requires c < Power16(width)
    ensures WideEscape(['\\', letter] + Hex(c, width) + rest, letter, width) == Some(EscapeMatch(c, 2 + width))
  {
    var text := ['\\', letter] + Hex(c, width) + rest;
    assert text[2..2 + width] == Hex(c, width);
    HexParses(c, width);
  }

  /** Whatever follows, the escape of `c` is matched whole and means `c`. */
  lemma EscapeOneMatches(c: CodePoint, rest: string)
    requires EscapeOne(c)[0] == '\\'
    ensures MatchEscape(EscapeOne(c) + rest) == Some(EscapeMatch(c, |EscapeOne(c)|))
  {
    HexWidths();
    if |EscapeOne(c)| > 2 {
      var letter, width := EscapeOne(c)[1], |EscapeOne(c)| - 2;
      assert EscapeOne(c) == ['\\', letter] + Hex(c, width);
      WideMatches(c, letter, width, rest);
    }
  }

  lemma OriginalOne(c: CodePoint, rest: string)
    requires OriginalPath(rest).Some?
    ensures OriginalPath(EscapeOne(c) + rest) == Some(Units(c) + OriginalPath(rest).value)
  {
    var text := EscapeOne(c) + rest;
    assert text[|EscapeOne(c)|..] == rest;
    if EscapeOne(c)[0] == '\\' {
      EscapeOneMatches(c, rest);
    }
  }

  lemma {:induction false} Undoes(s: seq<CodePoint>)
    ensures OriginalPath(Escape(s)) == Some(AllUnits(s))
  {
    if s != [] {
      Undoes(s[1..]);
      OriginalOne(s[0], Escape(s[1..]));
    }
  }

  /** The release check reads back every path that the scanner neither redacted nor
      cut, whatever code points it holds. */
  lemma OriginalPathUndoesSafe(redact: seq<CodePoint> -> seq<CodePoint>, s: seq<CodePoint>)
    requires redact(s) == s && |Escape(s)| <= SAFE_CHARS
    ensures OriginalPath(Safe(redact, s)) == Some(AllUnits(s))
  {
    Undoes(s);
  }

  // ---- What each side hashes ----

  predicate IsSurrogate(c: nat) {
    0xd800 <= c < 0xe000
  }

  /** The bytes that cannot be decoded come as U+DC80 to U+DCFF. */
  predicate IsEscapedByte(c: nat) {
    0xdc80 <= c < 0xdd00
  }

  /** UTF-8 of one code point. */
  function Utf8One(c: CodePoint): (bytes: seq<Byte>)
    ensures 1 <= |bytes| <= 4
  {
    if c < 0x80 then [c]
    else if c < 0x800 then [0xc0 + c / 0x40, 0x80 + c % 0x40]
    else if c < 0x1_0000 then [0xe0 + c / 0x1000, 0x80 + c / 0x40 % 0x40, 0x80 + c % 0x40]
    else [0xf0 + c / 0x4_0000, 0x80 + c / 0x1000 % 0x40, 0x80 + c / 0x40 % 0x40, 0x80 + c % 0x40]
  }

  /** The surrogates are the units that pairs are made of. */
  lemma SurrogateIff(c: CodeUnit)
    ensures IsSurrogate(c) <==> exists p: CodePoint :: p >= 0x1_0000 && c in Units(p)
  {
    if IsSurrogate(c) {
      var p: CodePoint := 0x1_0000 + if c < 0xdc00 then 0x400 * (c - 0xd800) else c - 0xdc00;
      assert c in Units(p);
    }
  }

  /** A byte that is not ASCII is escaped behind U+DC00, and the scanner puts it back. */
  lemma EscapedByteIff(c: CodePoint)
    ensures IsEscapedByte(c) <==> 0xdc00 + 0x80 <= c <= 0xdc00 + 0xff
    ensures IsEscapedByte(c) ==> Encodable([c]) && ScannerBytes([c]) == [c - 0xdc00]
  {
    if IsEscapedByte(c) {
      var b: Byte := c - 0xdc00;
      assert ScannerBytes([c]) == [b] + ScannerBytes([]);
    }
  }

  /** What the bytes after the first carry: six bits each (section 3 of RFC 3629). */
  ghost function Carried(bytes: seq<Byte>): int {
    if bytes == [] then 0 else Carried(bytes[..|bytes| - 1]) * 0x40 + (bytes[|bytes| - 1] as int - 0x80)
  }

  /** The code point that some bytes stand for, the first telling how many they are. */
  ghost predicate Reads(bytes: seq<Byte>, c: int) {
    && bytes != [] && (forall i :: 1 <= i < |bytes| ==> 0x80 <= bytes[i] <= 0xbf)
    && var first: int, rest := bytes[0], Carried(bytes[1..]);
       match |bytes|
       case 1 => first <= 0x7f && c == first
       case 2 => 0xc0 <= first <= 0xdf && c == (first - 0xc0) * 0x40 + rest
       case 3 => 0xe0 <= first <= 0xef && c == (first - 0xe0) * 0x1000 + rest
       case 4 => 0xf0 <= first <= 0xf7 && c == (first - 0xf0) * 0x4_0000 + rest
       case _ => false
  }

  lemma CarriedPieces(a: Byte, b: Byte, c: Byte)
    ensures Carried([a]) == a as int - 0x80
    ensures Carried([a, b]) == (a as int - 0x80) * 0x40 + (b as int - 0x80)
    ensures Carried([a, b, c]) == (a as int - 0x80) * 0x1000 + (b as int - 0x80) * 0x40 + (c as int - 0x80)
  {
    assert [a][..0] == [] && [a, b][..1] == [a] && [a, b, c][..2] == [a, b];
  }

  /** The bytes read back, and no fewer would do. */
  lemma Utf8Reads(c: CodePoint)
    ensures Reads(Utf8One(c), c)
    ensures |Utf8One(c)| == if c <= 0x7f then 1 else if c <= 0x7ff then 2 else if c <= 0xffff then 3 else 4
  {
    assert c / 0x1000 == c / 0x40 / 0x40 && c / 0x4_0000 == c / 0x1000 / 0x40;
    var bytes := Utf8One(c);
    if |bytes| == 2 {
      assert bytes[1..] == [bytes[1]];
      CarriedPieces(bytes[1], 0, 0);
    } else if |bytes| == 3 {
      assert bytes[1..] == [bytes[1], bytes[2]];
      CarriedPieces(bytes[1], bytes[2], 0);
    } else if |bytes| == 4 {
      assert bytes[1..] == [bytes[1], bytes[2], bytes[3]];
      CarriedPieces(bytes[1], bytes[2], bytes[3]);
    }
  }

  /** str.encode with surrogateescape accepts no other surrogate. */
  predicate Encodable(s: seq<CodePoint>) {
    forall c :: c in s && IsSurrogate(c) ==> IsEscapedByte(c)
  }

  /** str.encode("utf-8", "surrogateescape"), where it does not throw. */
  function ScannerBytes(s: seq<CodePoint>): seq<Byte>
    requires Encodable(s)
  {
    if s == [] then [] else
    (if IsSurrogate(s[0]) then [s[0] - 0xdc00] else Utf8One(s[0])) + ScannerBytes(s[1..])
  }

  const REPLACEMENT: seq<Byte> := [0xef, 0xbf, 0xbd]

  /** UTF-8 of a JavaScript string: a pair of surrogates is one code point, a lone one is
      replaced. */
  function RuntimeBytes(units: seq<CodeUnit>): seq<Byte> {
    if units == [] then []
    else if |units| >= 2 && 0xd800 <= units[0] < 0xdc00 <= units[1] < 0xe000 then
      var high: int, low: int := units[0] as int, units[1] as int;
      Utf8One(0x1_0000 + (high - 0xd800) * 0x400 + (low - 0xdc00)) + RuntimeBytes(units[2..])
    else (if IsSurrogate(units[0]) then REPLACEMENT else Utf8One(units[0])) + RuntimeBytes(units[1..])
  }

  predicate WellFormed(s: seq<CodePoint>) {
    forall c :: c in s ==> !IsSurrogate(c)
  }

  lemma RuntimeFirst(c: CodePoint, rest: seq<CodeUnit>)
    requires IsSurrogate(c) ==> IsEscapedByte(c)
    ensures RuntimeBytes(Units(c) + rest)
      == (if IsSurrogate(c) then REPLACEMENT else Utf8One(c)) + RuntimeBytes(rest)
  {
    var units := Units(c) + rest;
    assert units[|Units(c)|..] == rest;
    if c >= 0x1_0000 {
      var d := c - 0x1_0000;
      assert units[0] == 0xd800 + d / 0x400 && units[1] == 0xdc00 + d % 0x400;
      assert d / 0x400 * 0x400 + d % 0x400 == d;
    }
  }

  lemma RestEncodable(s: seq<CodePoint>)
    requires s != [] && Encodable(s)
    ensures Encodable(s[1..]) && (IsSurrogate(s[0]) ==> IsEscapedByte(s[0]))
    ensures WellFormed(s) <==> !IsSurrogate(s[0]) && WellFormed(s[1..])
  {
    assert s[0] in s && forall c :: c in s[1..] ==> c in s;
    assert forall c :: c in s ==> c == s[0] || c in s[1..];
  }

  /** Both sides hash the same bytes exactly when the label holds no surrogate: each
      escaped byte is one byte to the scanner and three to the runtime. */
  lemma {:induction false} SameBytesIff(s: seq<CodePoint>)
    requires Encodable(s)
    ensures |ScannerBytes(s)| <= |RuntimeBytes(AllUnits(s))|
    ensures |ScannerBytes(s)| == |RuntimeBytes(AllUnits(s))| ==> WellFormed(s)
    ensures ScannerBytes(s) == RuntimeBytes(AllUnits(s)) <==> WellFormed(s)
  {
    if s != [] {
      RestEncodable(s);
      SameBytesIff(s[1..]);
      RuntimeFirst(s[0], AllUnits(s[1..]));
    }
  }

  // ---- The inventory comparison ----

  datatype Entry = Entry(path: string, pathHash: Option<string>, kind: string, hash: Option<string>, size: Option<nat>,
    mode: Option<nat>, targetHash: Option<string>)

  datatype Receipt = Receipt(result: string, inventory: seq<Entry>)

  /** What the two receipts must agree on for one path. */
  datatype Identity = Identity(kind: string, hash: Option<string>, size: Option<nat>, mode: Option<nat>,
    targetHash: Option<string>)

  datatype InventoryError = Incomplete | Unexpected | Ambiguous | OutOfRange | Unverified | Differs

  /** Which receipt is read, how its labels start, and the hash of some bytes. */
  datatype Reading = Reading(archived: bool, prefix: string, wrappers: set<string>, windows: bool,
    digest: seq<Byte> -> string)

  /** The wrapper entries of an archive stand for no member of the package. */
  predicate Ignored(r: Reading, e: Entry) {
    e.kind == "directory"
    || (r.archived && !(r.prefix <= e.path) && e.path in r.wrappers && e.kind in {"gzip", "tar", "zip"})
  }

  function Member(r: Reading, e: Entry): (path: string)
    requires r.archived ==> r.prefix <= e.path
  {
    if r.archived then e.path[|r.prefix|..] else e.path
  }

  function IdentityOf(r: Reading, e: Entry): Identity {
    Identity(e.kind, e.hash, e.size, if r.windows then None else e.mode, e.targetHash)
  }

  /** Identities are equal exactly when all that is compared is; on Windows not the mode. */
  lemma IdentityTells(r: Reading, a: Entry, q: Reading, b: Entry)
    requires r.windows == q.windows
    ensures IdentityOf(r, a) == IdentityOf(q, b) <==>
      && a.kind == b.kind && a.hash == b.hash && a.size == b.size && a.targetHash == b.targetHash
      && (!r.windows ==> a.mode == b.mode)
  {}

  function PlainUnits(text: string): seq<CodeUnit> {
    if text == "" then [] else Units(text[0] as int) + PlainUnits(text[1..])
  }

  /** The path's own hash confirms what was read back from its escapes. */
  predicate Verified(r: Reading, e: Entry)
    requires r.archived ==> r.prefix <= e.path
  {
    var raw := OriginalPath(Member(r, e));
    raw.Some?
    && e.pathHash == Some(r.digest(RuntimeBytes((if r.archived then PlainUnits(r.prefix) else []) + raw.value)))
  }

  /** One pass of the loop body. */
  function Admit(r: Reading, e: Entry, known: map<string, Identity>): Result<map<string, Identity>, InventoryError> {
    if Ignored(r, e) then Success(known)
    else if r.archived && !(r.prefix <= e.path) then Failure(Unexpected)
    else if Member(r, e) == "" || Member(r, e) in known then Failure(Ambiguous)
    else if OriginalPath(Member(r, e)).None? then Failure(OutOfRange)
    else if !Verified(r, e) then Failure(Unverified)
    else Success(known[Member(r, e) := IdentityOf(r, e)])
  }

  function Collect(r: Reading, inventory: seq<Entry>): Result<map<string, Identity>, InventoryError> {
    if inventory == [] then Success(map[]) else
    var known :- Collect(r, inventory[..|inventory| - 1]);
    Admit(r, inventory[|inventory| - 1], known)
  }

  method Entries(r: Reading, inventory: seq<Entry>) returns (result: Result<map<string, Identity>, InventoryError>)
    ensures result == Collect(r, inventory)
  {
    var known := map[];
    for i := 0 to |inventory|
      invariant Collect(r, inventory[..i]) == Success(known)
    {
      assert inventory[..i + 1][..i] == inventory[..i];
      var step := Admit(r, inventory[i], known);
      if step.Failure? {
        CollectFails(r, inventory, i + 1);
        return step;
      }
      known := step.value;
    }
    assert inventory[..|inventory|] == inventory;
    return Success(known);
  }

  lemma {:induction false} CollectFails(r: Reading, inventory: seq<Entry>, n: nat)
    requires n <= |inventory| && Collect(r, inventory[..n]).Failure?
    ensures Collect(r, inventory) == Failure(Collect(r, inventory[..n]).error)
    decreases |inventory| - n
  {
    if n < |inventory| {
      assert inventory[..n + 1][..n] == inventory[..n];
      CollectFails(r, inventory, n + 1);
    } else {
      assert inventory[..n] == inventory;
    }
  }

  ghost predicate Good(r: Reading, e: Entry) {
    !Ignored(r, e) ==> (r.archived ==> r.prefix <= e.path) && Member(r, e) != "" && Verified(r, e)
  }

  ghost predicate Clash(r: Reading, a: Entry, b: Entry) {
    && !Ignored(r, a) && !Ignored(r, b) && (r.archived ==> r.prefix <= a.path && r.prefix <= b.path)
    && Member(r, a) == Member(r, b)
  }

  /** Every member of the package is named, verified, and named only once. */
  ghost predicate Sound(r: Reading, inventory: seq<Entry>) {
    && (forall i :: 0 <= i < |inventory| ==> Good(r, inventory[i]))
    && (forall i, j :: 0 <= i < j < |inventory| ==> !Clash(r, inventory[i], inventory[j]))
  }

  /** The entry at `i` is the package member `path`. */
  ghost predicate Names(r: Reading, inventory: seq<Entry>, i: nat, path: string, identity: Identity) {
    && i < |inventory| && !Ignored(r, inventory[i]) && (r.archived ==> r.prefix <= inventory[i].path)
    && Member(r, inventory[i]) == path && IdentityOf(r, inventory[i]) == identity
  }

  ghost predicate Listed(r: Reading, inventory: seq<Entry>, path: string, identity: Identity) {
    exists i: nat :: Names(r, inventory, i, path, identity)
  }

  lemma ListedLast(r: Reading, inventory: seq<Entry>, path: string, identity: Identity)
    requires inventory != []
    ensures Listed(r, inventory, path, identity) <==>
      Listed(r, inventory[..|inventory| - 1], path, identity)
      || Names(r, inventory, |inventory| - 1, path, identity)
  {
    var n := |inventory| - 1;
    if i: nat :| Names(r, inventory, i, path, identity) {
      assert i < n ==> Names(r, inventory[..n], i, path, identity);
    }
    if i: nat :| Names(r, inventory[..n], i, path, identity) {
      assert Names(r, inventory, i, path, identity);
    }
  }

  /** The map holds exactly the members listed. */
  ghost predicate Tabulates(r: Reading, inventory: seq<Entry>, known: map<string, Identity>) {
    forall path, identity :: Listed(r, inventory, path, identity) <==> path in known && known[path] == identity
  }

  lemma SoundLast(r: Reading, inventory: seq<Entry>)
    requires inventory != []
    ensures var n := |inventory| - 1;
      Sound(r, inventory) <==>
        Sound(r, inventory[..n]) && Good(r, inventory[n]) && forall k :: 0 <= k < n ==>
          !Clash(r, inventory[k], inventory[n])
  {
    var n := |inventory| - 1;
    var before := inventory[..n];
    assert forall i :: 0 <= i < n ==> before[i] == inventory[i];
    if Sound(r, inventory) {
      assert Sound(r, before);
    }
  }

  /** A path is already in the map exactly when an earlier entry clashes. */
  lemma ClashIsListed(r: Reading, inventory: seq<Entry>, known: map<string, Identity>, n: nat)
    requires n < |inventory| && Tabulates(r, inventory[..n], known)
    requires !Ignored(r, inventory[n]) && (r.archived ==> r.prefix <= inventory[n].path)
    requires forall i :: 0 <= i < n ==> Good(r, inventory[i])
    ensures Member(r, inventory[n]) in known <==> exists k :: 0 <= k < n && Clash(r, inventory[k], inventory[n])
  {
    var before, path := inventory[..n], Member(r, inventory[n]);
    if path in known {
      assert Listed(r, before, path, known[path]);
      var i: nat :| Names(r, before, i, path, known[path]);
      assert before[i] == inventory[i];
    }
    if k :| 0 <= k < n && Clash(r, inventory[k], inventory[n]) {
      assert before[k] == inventory[k];
      assert Names(r, before, k, path, IdentityOf(r, inventory[k]));
      assert Listed(r, before, path, IdentityOf(r, inventory[k]));
    }
  }

  /** The loop accepts exactly the sound inventories, and tabulates them. */
  lemma {:induction false} CollectTabulates(r: Reading, inventory: seq<Entry>)
    ensures Collect(r, inventory).Success? <==> Sound(r, inventory)
    ensures Collect(r, inventory).Success? ==> Tabulates(r, inventory, Collect(r, inventory).value)
  {
    if inventory != [] {
      var n := |inventory| - 1;
      var before, last := inventory[..n], inventory[n];
      CollectTabulates(r, before);
      SoundLast(r, inventory);
      if Sound(r, before) {
        var known := Collect(r, before).value;
        assert forall i :: 0 <= i < n ==> Good(r, before[i]) && before[i] == inventory[i];
        if Good(r, last) && !Ignored(r, last) {
          ClashIsListed(r, inventory, known, n);
        }
        if Admit(r, last, known).Success? {
          TabulatesLast(r, inventory, known);
        }
      }
    }
  }

  lemma TabulatesLast(r: Reading, inventory: seq<Entry>, known: map<string, Identity>)
    requires inventory != [] && Tabulates(r, inventory[..|inventory| - 1], known)
    requires Admit(r, inventory[|inventory| - 1], known).Success?
    ensures Tabulates(r, inventory, Admit(r, inventory[|inventory| - 1], known).value)
  {
    var next := Admit(r, inventory[|inventory| - 1], known).value;
    forall path, identity
      ensures Listed(r, inventory, path, identity) <==> path in next && next[path] == identity
    {
      ListedLast(r, inventory, path, identity);
    }
  }

  // ---- Why a receipt is refused ----

  /** Directories stand for nothing, nor do the containers that an archive is read through. */
  predicate Skipped(r: Reading, e: Entry) {
    e.kind == "directory"
    || (r.archived && !(r.prefix <= e.path) && e.path in r.wrappers
        && (e.kind == "gzip" || e.kind == "tar" || e.kind == "zip"))
  }

  /** What an entry's own path is behind the prefix. */
  function LabelOf(r: Reading, e: Entry): string {
    if r.archived && r.prefix <= e.path then e.path[|r.prefix|..] else e.path
  }

  /** What is wrong with the entry at `i`, in the order in which it is looked for. */
  ghost function EntryFault(r: Reading, inventory: seq<Entry>, i: nat): Option<InventoryError>
    requires i < |inventory|
  {
    var e := inventory[i];
    var name := LabelOf(r, e);
    if Skipped(r, e) then None
    else if r.archived && !(r.prefix <= e.path) then Some(Unexpected)
    else if name == "" || exists k :: 0 <= k < i && !Skipped(r, inventory[k]) && LabelOf(r, inventory[k]) == name
      then Some(Ambiguous)
    else match OriginalPath(name)
      case None => Some(OutOfRange)
      case Some(raw) =>
        if e.pathHash == Some(r.digest(RuntimeBytes((if r.archived then PlainUnits(r.prefix) else []) + raw)))
        then None else Some(Unverified)
  }

  /** The first entry at fault has this fault. */
  ghost predicate RefusedFor(r: Reading, inventory: seq<Entry>, e: InventoryError) {
    exists i: nat :: i < |inventory| && EntryFault(r, inventory, i) == Some(e)
      && forall k: nat :: k < i ==> EntryFault(r, inventory, k).None?
  }

  lemma FaultLast(r: Reading, inventory: seq<Entry>)
    requires inventory != [] && Collect(r, inventory[..|inventory| - 1]).Success?
    ensures var n := |inventory| - 1;
      EntryFault(r, inventory, n) ==
        match Admit(r, inventory[n], Collect(r, inventory[..n]).value)
        case Success(_) => None
        case Failure(e) => Some(e)
  {
    var n := |inventory| - 1;
    var before, last := inventory[..n], inventory[n];
    CollectTabulates(r, before);
    assert forall i :: 0 <= i < n ==> Good(r, before[i]) && before[i] == inventory[i];
    if !Ignored(r, last) && (r.archived ==> r.prefix <= last.path) {
      ClashIsListed(r, inventory, Collect(r, before).value, n);
      forall k | 0 <= k < n
        ensures Clash(r, inventory[k], last) <==>
          !Skipped(r, inventory[k]) && LabelOf(r, inventory[k]) == LabelOf(r, last)
      {
        assert Good(r, inventory[k]);
      }
    }
  }

  lemma FaultsKept(r: Reading, inventory: seq<Entry>, n: nat, i: nat)
    requires i < n <= |inventory|
    ensures EntryFault(r, inventory[..n], i) == EntryFault(r, inventory, i)
  {
    assert forall k :: 0 <= k < n ==> inventory[..n][k] == inventory[k];
  }

  /** The loop stops at the first entry at fault, with its fault. */
  lemma {:induction false} FirstFault(r: Reading, inventory: seq<Entry>)
    ensures Collect(r, inventory).Success? ==>
      forall i: nat :: i < |inventory| ==> EntryFault(r, inventory, i).None?
    ensures Collect(r, inventory).Failure? ==> RefusedFor(r, inventory, Collect(r, inventory).error)
  {
    if inventory != [] {
      var n: nat := |inventory| - 1;
      var before := inventory[..n];
      FirstFault(r, before);
      forall i: nat | i < n
        ensures EntryFault(r, before, i) == EntryFault(r, inventory, i)
      {
        FaultsKept(r, inventory, n, i);
      }
      if Collect(r, before).Success? {
        CollectTabulates(r, before);
        FaultLast(r, inventory);
      } else {
        var i: nat :| i < n && EntryFault(r, before, i) == Some(Collect(r, before).error)
          && forall k: nat :: k < i ==> EntryFault(r, before, k).None?;
        assert EntryFault(r, inventory, i) == Some(Collect(r, inventory).error);
      }
    }
  }

  lemma OneRefusal(r: Reading, inventory: seq<Entry>, e: InventoryError)
    ensures Collect(r, inventory) == Failure(e) <==> RefusedFor(r, inventory, e)
  {
    FirstFault(r, inventory);
    if Collect(r, inventory).Failure? && RefusedFor(r, inventory, e) {
      var d := Collect(r, inventory).error;
      var i: nat :| i < |inventory| && EntryFault(r, inventory, i) == Some(e)
        && forall k: nat :: k < i ==> EntryFault(r, inventory, k).None?;
      var j: nat :| j < |inventory| && EntryFault(r, inventory, j) == Some(d)
        && forall k: nat :: k < j ==> EntryFault(r, inventory, k).None?;
      assert i == j;
    }
  }

  // ---- The two receipts compared ----

  lemma {:induction false} SameSizeSubset(a: map<string, Identity>, b: map<string, Identity>)
    requires |a| == |b| && forall path :: path in a ==> path in b && b[path] == a[path]
    ensures a == b
  {
    assert a.Keys <= b.Keys;
    SubsetSize(a.Keys, b.Keys);
    assert |a.Keys| == |a| && |b.Keys| == |b|;
  }

  lemma {:induction false} SubsetSize(a: set<string>, b: set<string>)
    requires a <= b && |a| == |b|
    ensures a == b
  {
    if path :| path in b && path !in a {
      SubsetAtMost(a, b - {path});
      assert false;
    }
  }

  lemma {:induction false} SubsetAtMost(a: set<string>, b: set<string>)
    requires a <= b
    ensures |a| <= |b|
    decreases |a|
  {
    if path :| path in a {
      SubsetAtMost(a - {path}, b - {path});
    }
  }

  /** No other entry names this path. */
  ghost predicate OnlyAt(r: Reading, inventory: seq<Entry>, j: nat, path: string) {
    forall k: nat, identity :: Names(r, inventory, k, path, identity) ==> k == j
  }

  /** Each entry of the one inventory that stands for a member has exactly one
      counterpart in the other, with the same path and the same identity. */
  ghost predicate MatchedInto(r: Reading, from: seq<Entry>, q: Reading, to: seq<Entry>) {
    forall i: nat, path, identity :: Names(r, from, i, path, identity) ==>
      exists j: nat :: Names(q, to, j, path, identity) && OnlyAt(q, to, j, path)
  }

  lemma SoundNamesOnce(r: Reading, inventory: seq<Entry>, i: nat, j: nat, path: string, a: Identity, b: Identity)
    requires Sound(r, inventory) && Names(r, inventory, i, path, a) && Names(r, inventory, j, path, b)
    ensures i == j
  {
    assert i != j ==> Clash(r, inventory[i], inventory[j]) && Clash(r, inventory[j], inventory[i]);
  }

  lemma SameTableMatches(r: Reading, from: seq<Entry>, q: Reading, to: seq<Entry>, known: map<string, Identity>)
    requires Sound(q, to) && Tabulates(r, from, known) && Tabulates(q, to, known)
    ensures MatchedInto(r, from, q, to)
  {
    forall i: nat, path, identity | Names(r, from, i, path, identity)
      ensures exists j: nat :: Names(q, to, j, path, identity) && OnlyAt(q, to, j, path)
    {
      assert Listed(r, from, path, identity);
      assert Listed(q, to, path, identity);
      var j: nat :| Names(q, to, j, path, identity);
      forall k: nat, other | Names(q, to, k, path, other)
        ensures k == j
      {
        SoundNamesOnce(q, to, k, j, path, other, identity);
      }
    }
  }

  lemma MatchesSameTable(r: Reading, from: seq<Entry>, q: Reading, to: seq<Entry>, a: map<string, Identity>,
      b: map<string, Identity>)
    requires Tabulates(r, from, a) && Tabulates(q, to, b) && MatchedInto(r, from, q, to)
    ensures forall path :: path in a ==> path in b && b[path] == a[path]
  {
    forall path | path in a
      ensures path in b && b[path] == a[path]
    {
      assert Listed(r, from, path, a[path]);
      var i: nat :| Names(r, from, i, path, a[path]);
      var j: nat :| Names(q, to, j, path, a[path]);
      assert Listed(q, to, path, a[path]);
    }
  }

  /** Package and stage pair off: no entry of either is unnamed, unverified,
      repeated, or without its one counterpart. */
  ghost predicate Paired(stage: Reading, before: seq<Entry>, packed: Reading, after: seq<Entry>) {
    && Sound(stage, before) && Sound(packed, after)
    && MatchedInto(stage, before, packed, after) && MatchedInto(packed, after, stage, before)
  }

  method VerifyPackagedInventory(stage: Option<Receipt>, packed: Option<Receipt>, prefix: string, wrappers: set<string>,
      windows: bool, digest: seq<Byte> -> string) returns (r: Result<(), InventoryError>)
    ensures r.Success? <==>
      && stage.Some? && packed.Some? && stage.value.result == "clean" && packed.value.result == "clean"
      && Paired(Reading(false, prefix, wrappers, windows, digest), stage.value.inventory,
           Reading(true, prefix, wrappers, windows, digest), packed.value.inventory)
    ensures r == Failure(Incomplete) <==>
      stage.None? || packed.None? || stage.value.result != "clean" || packed.value.result != "clean"
    ensures r.Failure? && r.error != Incomplete ==>
      var plain, archived := Reading(false, prefix, wrappers, windows, digest),
        Reading(true, prefix, wrappers, windows, digest);
      var before, after := stage.value.inventory, packed.value.inventory;
      if !Sound(plain, before) then RefusedFor(plain, before, r.error)
      else if !Sound(archived, after) then RefusedFor(archived, after, r.error)
      else r.error == Differs
  {
    if stage.None? || packed.None? || stage.value.result != "clean" || packed.value.result != "clean" {
      return Failure(Incomplete);
    }
    var plain, archived := Reading(false, prefix, wrappers, windows, digest),
      Reading(true, prefix, wrappers, windows, digest);
    CollectTabulates(plain, stage.value.inventory);
    CollectTabulates(archived, packed.value.inventory);
    FirstFault(plain, stage.value.inventory);
    FirstFault(archived, packed.value.inventory);
    var before :- Entries(plain, stage.value.inventory);
    var after :- Entries(archived, packed.value.inventory);
    ComparedMeans(plain, stage.value.inventory, archived, packed.value.inventory, before, after);
    if |before| != |after| || exists path :: path in before && (path !in after || after[path] != before[path]) {
      return Failure(Differs);
    }
    return Success(());
  }

  lemma ComparedMeans(r: Reading, from: seq<Entry>, q: Reading, to: seq<Entry>, a: map<string, Identity>,
      b: map<string, Identity>)
    requires Sound(r, from) && Sound(q, to) && Tabulates(r, from, a) && Tabulates(q, to, b)
    ensures (|a| == |b| && forall path :: path in a ==> path in b && b[path] == a[path]) <==> Paired(r, from, q, to)
  {
    if |a| == |b| && forall path :: path in a ==> path in b && b[path] == a[path] {
      SameSizeSubset(a, b);
      SameTableMatches(r, from, q, to, a);
      SameTableMatches(q, to, r, from, a);
    }
    if Paired(r, from, q, to) {
      MatchesSameTable(r, from, q, to, a, b);
      MatchesSameTable(q, to, r, from, b, a);
      assert a == b;
    }
  }

  // ---- Receipts that the scanner wrote ----

  /** Two sound inventories pair off exactly when they list the same members. */
  lemma PairedIff(r: Reading, from: seq<Entry>, q: Reading, to: seq<Entry>)
    requires Sound(r, from) && Sound(q, to)
    ensures Paired(r, from, q, to) <==>
      forall path, identity :: Listed(r, from, path, identity) <==> Listed(q, to, path, identity)
  {
    CollectTabulates(r, from);
    CollectTabulates(q, to);
    var a, b := Collect(r, from).value, Collect(q, to).value;
    ComparedMeans(r, from, q, to, a, b);
    if Paired(r, from, q, to) {
      SameSizeSubset(a, b);
    } else if forall path, identity :: Listed(r, from, path, identity) <==> Listed(q, to, path, identity) {
      SameTableMatches(r, from, q, to, b);
      SameTableMatches(q, to, r, from, b);
    }
  }

  /** Different strings print differently: the escapes can be told apart. */
  lemma {:induction false} EscapeInjective(a: seq<CodePoint>, b: seq<CodePoint>)
    requires Escape(a) == Escape(b)
    ensures a == b
  {
    if a != [] && b != [] {
      var x, y := Escape(a[1..]), Escape(b[1..]);
      FirstEscape(a[0], x, b[0], y);
      assert (EscapeOne(a[0]) + x)[|EscapeOne(a[0])|..] == x && (EscapeOne(b[0]) + y)[|EscapeOne(b[0])|..] == y;
      EscapeInjective(a[1..], b[1..]);
      assert a == [a[0]] + a[1..] && b == [b[0]] + b[1..];
    }
  }

  lemma FirstEscape(a: CodePoint, x: string, b: CodePoint, y: string)
    requires EscapeOne(a) + x == EscapeOne(b) + y
    ensures a == b
  {
    assert EscapeOne(a)[0] == (EscapeOne(a) + x)[0] == (EscapeOne(b) + y)[0] == EscapeOne(b)[0];
    if EscapeOne(a)[0] == '\\' {
      EscapeOneMatches(a, x);
      EscapeOneMatches(b, y);
    }
  }

  /** A file that the scanner enters under its label. */
  datatype Item = Item(name: seq<CodePoint>, kind: string, hash: Option<string>, size: Option<nat>,
    mode: Option<nat>, targetHash: Option<string>)

  /** `entry`: the label printed, and the hash of the label itself. */
  function Written(r: Reading, redact: seq<CodePoint> -> seq<CodePoint>, x: Item): Entry
    requires Encodable(x.name)
  {
    Entry(Safe(redact, x.name), Some(r.digest(ScannerBytes(x.name))), x.kind, x.hash, x.size, x.mode, x.targetHash)
  }

  /** The scanner has written them all: it could encode every label. */
  ghost predicate AllEncodable(items: seq<Item>) {
    forall x :: x in items ==> Encodable(x.name)
  }

  ghost function WrittenAll(r: Reading, redact: seq<CodePoint> -> seq<CodePoint>, items: seq<Item>)
      : (inventory: seq<Entry>)
    requires AllEncodable(items)
    ensures |inventory| == |items|
    ensures forall i :: 0 <= i < |items| ==> inventory[i] == Written(r, redact, items[i])
  {
    seq(|items|, i requires 0 <= i < |items| => Written(r, redact, items[i]))
  }

  /** The label is neither redacted nor cut, and the hash tells what the scanner encodes
      from what the runtime does, where these differ. */
  ghost predicate Kept(r: Reading, redact: seq<CodePoint> -> seq<CodePoint>, x: Item) {
    && redact(x.name) == x.name && |Escape(x.name)| <= SAFE_CHARS && Encodable(x.name)
    && var scanned, read := ScannerBytes(x.name), RuntimeBytes(AllUnits(x.name));
       r.digest(scanned) == r.digest(read) ==> scanned == read
  }

  ghost predicate AllKept(r: Reading, redact: seq<CodePoint> -> seq<CodePoint>, items: seq<Item>) {
    AllEncodable(items) && forall x :: x in items ==> Kept(r, redact, x)
  }

  /** Text that prints as itself. */
  predicate PlainText(text: string) {
    forall i :: 0 <= i < |text| ==> ' ' <= text[i] <= '~' && text[i] != '\\'
  }

  function Points(text: string): (points: seq<CodePoint>)
    ensures |points| == |text|
  {
    if text == "" then [] else [text[0] as int] + Points(text[1..])
  }

  /** What starts with the prefix prints with the prefix in front, and nothing else does. */
  lemma {:induction false} PrefixIff(prefix: string, s: seq<CodePoint>)
    requires PlainText(prefix)
    ensures prefix <= Escape(s) <==> Points(prefix) <= s
    ensures Points(prefix) <= s ==> Escape(s)[|prefix|..] == Escape(s[|prefix|..])
    decreases |prefix|
  {
    if prefix == "" {
      assert s[0..] == s && Escape(s)[0..] == Escape(s);
    } else if s != [] {
      var rest := prefix[1..];
      PrefixIff(rest, s[1..]);
      if s[0] == prefix[0] as int {
        assert EscapeOne(s[0]) == [prefix[0]];
        assert Escape(s)[1..] == Escape(s[1..]);
        assert prefix <= Escape(s) <==> rest <= Escape(s)[1..];
        assert Points(prefix) <= s <==> Points(rest) <= s[1..];
        if Points(prefix) <= s {
          assert s[1..][|rest|..] == s[|prefix|..] && Escape(s)[1..][|rest|..] == Escape(s)[|prefix|..];
        }
      } else {
        assert EscapeOne(s[0])[0] != prefix[0];
      }
    }
  }

  lemma {:induction false} PrefixUnits(prefix: string, s: seq<CodePoint>)
    requires Points(prefix) <= s
    ensures AllUnits(s) == PlainUnits(prefix) + AllUnits(s[|prefix|..])
    decreases |prefix|
  {
    if prefix == "" {
      assert s[0..] == s && [] + AllUnits(s) == AllUnits(s);
    } else {
      assert s[0] == Points(prefix)[0] && s[1..][|prefix| - 1..] == s[|prefix|..];
      PrefixUnits(prefix[1..], s[1..]);
      Nest(Units(s[0]), PlainUnits(prefix[1..]), AllUnits(s[|prefix|..]));
    }
  }

  // ---- What the labels themselves say ----

  predicate ItemIgnored(r: Reading, x: Item) {
    x.kind == "directory"
    || (r.archived && !(Points(r.prefix) <= x.name) && Escape(x.name) in r.wrappers
        && x.kind in {"gzip", "tar", "zip"})
  }

  /** The label of a member of the package: in an archive, behind the prefix. */
  function MemberName(r: Reading, x: Item): seq<CodePoint>
    requires r.archived ==> Points(r.prefix) <= x.name
  {
    if r.archived then x.name[|r.prefix|..] else x.name
  }

  function ItemIdentity(r: Reading, x: Item): Identity {
    Identity(x.kind, x.hash, x.size, if r.windows then None else x.mode, x.targetHash)
  }

  predicate IsMember(r: Reading, x: Item) {
    !ItemIgnored(r, x) && (r.archived ==> Points(r.prefix) <= x.name)
  }

  /** No member's label comes from bytes that could not be decoded. */
  ghost predicate Decodable(r: Reading, items: seq<Item>) {
    forall x :: x in items && IsMember(r, x) ==> WellFormed(x.name)
  }

  /** Everything but directories and wrappers is a member with a label of its own. */
  ghost predicate Distinct(r: Reading, items: seq<Item>) {
    && (forall x :: x in items && !ItemIgnored(r, x) ==> IsMember(r, x) && MemberName(r, x) != [])
    && (forall i, j :: 0 <= i < j < |items| && IsMember(r, items[i]) && IsMember(r, items[j]) ==>
          MemberName(r, items[i]) != MemberName(r, items[j]))
  }

  /** The package has a member with this label and identity. */
  ghost predicate HasMember(r: Reading, items: seq<Item>, member: seq<CodePoint>, identity: Identity) {
    exists x :: x in items && IsMember(r, x) && MemberName(r, x) == member && ItemIdentity(r, x) == identity
  }

  /** An item as its entry shows it. */
  lemma EntryOf(r: Reading, redact: seq<CodePoint> -> seq<CodePoint>, x: Item)
    requires PlainText(r.prefix) && Kept(r, redact, x)
    ensures var e := Written(r, redact, x);
      && (Ignored(r, e) <==> ItemIgnored(r, x))
      && (r.prefix <= e.path <==> Points(r.prefix) <= x.name)
      && IdentityOf(r, e) == ItemIdentity(r, x)
    ensures var e := Written(r, redact, x);
      (r.archived ==> Points(r.prefix) <= x.name) ==>
        Member(r, e) == Escape(MemberName(r, x)) && (Verified(r, e) <==> WellFormed(x.name))
  {
    PrefixIff(r.prefix, x.name);
    if r.archived ==> Points(r.prefix) <= x.name {
      Undoes(MemberName(r, x));
      if r.archived {
        PrefixUnits(r.prefix, x.name);
      }
      assert [] + AllUnits(x.name) == AllUnits(x.name);
      SameBytesIff(x.name);
    }
  }

  lemma SoundWritten(r: Reading, redact: seq<CodePoint> -> seq<CodePoint>, items: seq<Item>)
    requires PlainText(r.prefix) && AllKept(r, redact, items)
    ensures Sound(r, WrittenAll(r, redact, items)) <==> Distinct(r, items) && Decodable(r, items)
  {
    var inventory := WrittenAll(r, redact, items);
    forall i | 0 <= i < |items|
      ensures Good(r, inventory[i]) <==>
        (!ItemIgnored(r, items[i]) ==>
          IsMember(r, items[i]) && MemberName(r, items[i]) != [] && WellFormed(items[i].name))
    {
      GoodWritten(r, redact, items[i]);
    }
    forall i, j | 0 <= i < j < |items|
      ensures Clash(r, inventory[i], inventory[j]) <==>
        IsMember(r, items[i]) && IsMember(r, items[j]) && MemberName(r, items[i]) == MemberName(r, items[j])
    {
      ClashWritten(r, redact, items[i], items[j]);
    }
    assert forall x :: x in items ==> exists i :: 0 <= i < |items| && items[i] == x;
  }

  lemma GoodWritten(r: Reading, redact: seq<CodePoint> -> seq<CodePoint>, x: Item)
    requires PlainText(r.prefix) && Kept(r, redact, x)
    ensures Good(r, Written(r, redact, x)) <==>
      (!ItemIgnored(r, x) ==> IsMember(r, x) && MemberName(r, x) != [] && WellFormed(x.name))
  {
    EntryOf(r, redact, x);
  }

  lemma ClashWritten(r: Reading, redact: seq<CodePoint> -> seq<CodePoint>, x: Item, y: Item)
    requires PlainText(r.prefix) && Kept(r, redact, x) && Kept(r, redact, y)
    ensures Clash(r, Written(r, redact, x), Written(r, redact, y)) <==>
      IsMember(r, x) && IsMember(r, y) && MemberName(r, x) == MemberName(r, y)
  {
    EntryOf(r, redact, x);
    EntryOf(r, redact, y);
    if IsMember(r, x) && IsMember(r, y) && Escape(MemberName(r, x)) == Escape(MemberName(r, y)) {
      EscapeInjective(MemberName(r, x), MemberName(r, y));
    }
  }

  lemma MemberOfEntry(r: Reading, redact: seq<CodePoint> -> seq<CodePoint>, items: seq<Item>, i: nat, path: string,
      identity: Identity) returns (member: seq<CodePoint>)
    requires PlainText(r.prefix) && AllKept(r, redact, items)
    requires Names(r, WrittenAll(r, redact, items), i, path, identity)
    ensures HasMember(r, items, member, identity) && Escape(member) == path
  {
    EntryOf(r, redact, items[i]);
    assert items[i] in items;
    member := MemberName(r, items[i]);
  }

  lemma EntryOfMember(r: Reading, redact: seq<CodePoint> -> seq<CodePoint>, items: seq<Item>, member: seq<CodePoint>,
      identity: Identity)
    requires PlainText(r.prefix) && AllKept(r, redact, items) && HasMember(r, items, member, identity)
    ensures Listed(r, WrittenAll(r, redact, items), Escape(member), identity)
  {
    var x :| x in items && IsMember(r, x) && MemberName(r, x) == member && ItemIdentity(r, x) == identity;
    var i: nat :| i < |items| && items[i] == x;
    EntryOf(r, redact, x);
    assert Names(r, WrittenAll(r, redact, items), i, Escape(member), identity);
  }

  /** The entries list exactly the members, under their printed labels. */
  lemma ListedWritten(r: Reading, redact: seq<CodePoint> -> seq<CodePoint>, items: seq<Item>, path: string,
      identity: Identity)
    requires PlainText(r.prefix) && AllKept(r, redact, items)
    ensures Listed(r, WrittenAll(r, redact, items), path, identity) <==>
      exists member :: HasMember(r, items, member, identity) && Escape(member) == path
  {
    if i: nat :| Names(r, WrittenAll(r, redact, items), i, path, identity) {
      var _ := MemberOfEntry(r, redact, items, i, path, identity);
    }
    if member :| HasMember(r, items, member, identity) && Escape(member) == path {
      EntryOfMember(r, redact, items, member, identity);
    }
  }

  ghost predicate SameMembers(stage: Reading, staged: seq<Item>, packed: Reading, archived: seq<Item>) {
    forall member, identity ::
      HasMember(stage, staged, member, identity) <==> HasMember(packed, archived, member, identity)
  }

  lemma MembersInto(r: Reading, a: seq<Item>, q: Reading, b: seq<Item>, redact: seq<CodePoint> -> seq<CodePoint>,
      member: seq<CodePoint>, identity: Identity)
    requires PlainText(r.prefix) && PlainText(q.prefix) && AllKept(r, redact, a) && AllKept(q, redact, b)
    requires HasMember(r, a, member, identity)
    requires forall path, other :: Listed(r, WrittenAll(r, redact, a), path, other) ==>
      Listed(q, WrittenAll(q, redact, b), path, other)
    ensures HasMember(q, b, member, identity)
  {
    ListedWritten(r, redact, a, Escape(member), identity);
    ListedWritten(q, redact, b, Escape(member), identity);
    var twin :| HasMember(q, b, twin, identity) && Escape(twin) == Escape(member);
    EscapeInjective(twin, member);
  }

  /** Printer and reader together: two clean receipts that the scanner wrote, without
      redacting or cutting a label, are accepted exactly when stage and archive have
      distinct labels, none of them from undecodable bytes, and the same members, label by
      label and identity by identity. */
  lemma ScannedInventoriesPair(stage: Reading, staged: seq<Item>, packed: Reading, archived: seq<Item>,
      redact: seq<CodePoint> -> seq<CodePoint>)
    requires PlainText(stage.prefix) && PlainText(packed.prefix)
    requires AllKept(stage, redact, staged) && AllKept(packed, redact, archived)
    ensures Paired(stage, WrittenAll(stage, redact, staged), packed, WrittenAll(packed, redact, archived)) <==>
      && Distinct(stage, staged) && Distinct(packed, archived)
      && Decodable(stage, staged) && Decodable(packed, archived)
      && SameMembers(stage, staged, packed, archived)
  {
    var before, after := WrittenAll(stage, redact, staged), WrittenAll(packed, redact, archived);
    SoundWritten(stage, redact, staged);
    SoundWritten(packed, redact, archived);
    if Sound(stage, before) && Sound(packed, after) {
      PairedIff(stage, before, packed, after);
      forall path, identity
        ensures Listed(stage, before, path, identity) <==>
          exists member :: HasMember(stage, staged, member, identity) && Escape(member) == path
        ensures Listed(packed, after, path, identity) <==>
          exists member :: HasMember(packed, archived, member, identity) && Escape(member) == path
      {
        ListedWritten(stage, redact, staged, path, identity);
        ListedWritten(packed, redact, archived, path, identity);
      }
      if Paired(stage, before, packed, after) {
        forall member, identity
          ensures HasMember(stage, staged, member, identity) <==> HasMember(packed, archived, member, identity)
        {
          if HasMember(stage, staged, member, identity) {
            MembersInto(stage, staged, packed, archived, redact, member, identity);
          }
          if HasMember(packed, archived, member, identity) {
            MembersInto(packed, archived, stage, staged, redact, member, identity);
          }
        }
      }
    }
  }

  /** What the scanner prints and the release check reads back without loss is refused all
      the same if its label comes from undecodable bytes. */
  lemma UndecodableRefused(stage: Reading, redact: seq<CodePoint> -> seq<CodePoint>, x: Item)
    requires !stage.archived && PlainText(stage.prefix) && Kept(stage, redact, x)
    requires x.kind != "directory" && !WellFormed(x.name)
    ensures OriginalPath(Written(stage, redact, x).path) == Some(AllUnits(x.name))
    ensures Collect(stage, [Written(stage, redact, x)]) == Failure(Unverified)
  {
    EntryOf(stage, redact, x);
    Undoes(x.name);
    assert [Written(stage, redact, x)][..0] == [];
  }

  lemma BytePrinted()
    ensures EscapeOne(0xdcff) == "\\udcff"
  {
    HexWidths();
    assert Hex(0xdcff, 4) == Hex(0xdcf, 3) + "f" && Hex(0xdcf, 3) == Hex(0xdc, 2) + "f";
    assert Hex(0xdc, 2) == Hex(0xd, 1) + "c" && Hex(0xd, 1) == Hex(0, 0) + "d";
  }

  /** It happens: a file name that is the one byte FF comes as U+DCFF. One side hashes FF,
      the other EF BF BD. */
  lemma ByteNamed()
    ensures Encodable([0xdcff]) && !WellFormed([0xdcff]) && Escape([0xdcff]) == "\\udcff"
    ensures ScannerBytes([0xdcff]) == [0xff] && RuntimeBytes(AllUnits([0xdcff])) == REPLACEMENT
  {
    BytePrinted();
    assert Escape([0xdcff]) == EscapeOne(0xdcff) + Escape([]);
    assert ScannerBytes([0xdcff]) == [0xff] + ScannerBytes([]);
    RuntimeFirst(0xdcff, []);
    assert AllUnits([0xdcff]) == Units(0xdcff) + AllUnits([]);
  }
}
