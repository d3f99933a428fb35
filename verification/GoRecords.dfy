/** Go's records of an approved text: import names and equality symbols, as they are
    written, and that the scanner's reading recognises just these. */
module GoRecords {
  import opened Prelude
  import opened Bytes
  import opened Matcher
  import opened ScannerRules
  import opened ScannerHost
  import opened ApprovedSpans

  function LastOf(a: seq<Byte>, n: nat): seq<Byte> {
    if |a| <= n then a else a[|a| - n..]
  }

  function FirstOf(b: seq<Byte>, n: nat): seq<Byte> {
    if |b| <= n then b else b[..n]
  }

  // ---- Go's records ----

  /** `mark` and a word, again and again. */
  function Marked(mark: Byte, words: seq<seq<Byte>>): seq<Byte> {
    if words == [] then [] else [mark] + words[0] + Marked(mark, words[1..])
  }

  /** A letter, a digit or an underscore. */
  predicate Wordly(b: Byte) {
    'a' as int <= b <= 'z' as int || 'A' as int <= b <= 'Z' as int || '0' as int <= b <= '9' as int || b == '_' as int
  }

  ghost predicate AreWords(words: seq<seq<Byte>>, dashes: bool) {
    forall w :: w in words ==> w != [] && forall b :: b in w ==> Wordly(b) || (dashes && b == '-' as int)
  }

  lemma FirstWord(mark: Byte, text: seq<Byte>) returns (word: seq<Byte>, rest: seq<Byte>)
    requires Parts(text, mark)
    ensures text == [mark] + word + rest && word != [] && mark !in word && (rest == [] || Parts(rest, mark))
  {
    var n := NextMark(mark, text, 1);
    word, rest := text[1..n], text[n..];
    assert forall k :: 0 <= k < |rest| ==> rest[k] == text[n + k];
  }

  lemma {:induction false} NextMark(mark: Byte, text: seq<Byte>, from: nat) returns (n: nat)
    requires from <= |text|
    ensures from <= n <= |text| && mark !in text[from..n] && (n == |text| || text[n] == mark)
    decreases |text| - from
  {
    if from == |text| || text[from] == mark {
      n := from;
    } else {
      n := NextMark(mark, text, from + 1);
      assert text[from..n] == [text[from]] + text[from + 1..n];
    }
  }

  lemma {:induction false} PartsAreMarked(mark: Byte, text: seq<Byte>) returns (words: seq<seq<Byte>>)
    requires Parts(text, mark)
    ensures words != [] && text == Marked(mark, words)
    ensures forall w :: w in words ==> w != [] && mark !in w && forall b :: b in w ==> b in text
    decreases |text|
  {
    var word, rest := FirstWord(mark, text);
    var more := [];
    if rest != [] {
      more := PartsAreMarked(mark, rest);
    }
    words := [word] + more;
    assert words[1..] == more;
  }

  lemma OnePart(mark: Byte, word: seq<Byte>, rest: seq<Byte>)
    requires word != [] && mark !in word && (rest == [] || Parts(rest, mark))
    ensures Parts([mark] + word + rest, mark)
  {
    var text := [mark] + word + rest;
    assert forall j :: 0 <= j < |word| ==> text[j + 1] == word[j] && word[j] in word;
    assert forall j :: 0 <= j < |rest| ==> text[j + 1 + |word|] == rest[j];
    forall k | 0 <= k < |text| && text[k] == mark
      ensures k + 1 < |text| && text[k + 1] != mark
    {
      assert k == 0 || k > |word|;
    }
  }

  lemma {:induction false} MarkedAreParts(mark: Byte, words: seq<seq<Byte>>)
    requires words != [] && forall w :: w in words ==> w != [] && mark !in w
    ensures Parts(Marked(mark, words), mark)
    ensures forall b :: b in Marked(mark, words) ==> b == mark || exists w :: w in words && b in w
  {
    assert words[0] in words && forall w :: w in words[1..] ==> w in words;
    if words[1..] != [] {
      MarkedAreParts(mark, words[1..]);
    }
    OnePart(mark, words[0], Marked(mark, words[1..]));
  }

  /** The regular expression for a package path behind the text. */
  lemma PathSuffixMeans(text: seq<Byte>)
    ensures PathSuffix(text) <==> exists words :: AreWords(words, true) && text == Marked('/' as int, words)
  {
    if PathSuffix(text) && text != [] {
      var words := PartsAreMarked(47, text);
      assert AreWords(words, true);
    } else if text == [] {
      assert AreWords([], true) && Marked(47, []) == [];
    }
    if words :| AreWords(words, true) && text == Marked('/' as int, words) {
      if words != [] {
        MarkedAreParts(47, words);
      }
    }
  }

  /** And for the type behind that. */
  lemma TypeSuffixMeans(text: seq<Byte>)
    ensures TypeSuffix(text) <==>
      exists words :: words != [] && AreWords(words, false) && text == Marked('.' as int, words)
  {
    if TypeSuffix(text) {
      var words := PartsAreMarked(46, text);
      assert AreWords(words, false);
    }
    if words :| words != [] && AreWords(words, false) && text == Marked('.' as int, words) {
      MarkedAreParts(46, words);
    }
  }

  /** An unsigned number as Go writes it: seven bits a byte, the lowest first, no byte more
      than it takes. */
  function Canonical(n: nat): (field: seq<Byte>)
    requires n <= MAX_NAME
    ensures 1 <= |field| <= 2
  {
    if n < 128 then [n] else [128 + n % 128, n / 128]
  }

  /** The next byte continues a path: a letter, a digit, or one of `_` `-` `/` `.` `@`. */
  predicate PathGoesOn(b: seq<Byte>) {
    b != []
    && (Wordly(b[0]) || b[0] == '-' as int || b[0] == '/' as int || b[0] == '.' as int || b[0] == '@' as int)
  }

  /** `name` stands between `a` and `b` as a Go import name: behind a zero byte of flags and
      its own length, the token and then path elements, and the path ends with it. */
  ghost predicate IsGoName(token: seq<Byte>, s: seq<Byte>, a: seq<Byte>, name: seq<Byte>, b: seq<Byte>) {
    && token <= name && |name| <= MAX_NAME && s == a + [0] + Canonical(|name|) + name + b
    && (exists words :: AreWords(words, true) && name[|token|..] == Marked('/' as int, words)) && !PathGoesOn(b)
  }

  lemma RecordSlices(a: seq<Byte>, field: seq<Byte>, name: seq<Byte>, b: seq<Byte>)
    ensures var s, begin := a + [0] + field + name + b, |a| + 1 + |field|;
      && Slice(s, |a|, |a| + 1) == [0] && Slice(s, |a| + 1, begin) == field
      && Slice(s, begin, begin + |name|) == name
      && Slice(s, begin + |name|, begin + |name| + 1) == FirstOf(b, 1)
  {
    var s, begin := a + [0] + field + name + b, |a| + 1 + |field|;
    assert s[|a|..|a| + 1] == [0] && s[|a| + 1..begin] == field && s[begin..begin + |name|] == name;
    assert s[begin + |name|..] == b;
    if b != [] {
      assert s[begin + |name|..begin + |name| + 1] == [b[0]];
    }
  }

  lemma CanonicalIs(field: seq<Byte>, n: nat)
    requires n <= MAX_NAME
    ensures field == Canonical(n) <==> IsVarint(field) && Varint(field) == n && (|field| == 2 ==> n >= 128)
  {}

  /** The reader reads slices of `s`. */
  ghost predicate ReadsFrom(read: Reader, s: seq<Byte>) {
    forall from: nat, to: nat :: ReadsAt(read, s, from, to)
  }

  ghost predicate ReadsAt(read: Reader, s: seq<Byte>, from: nat, to: nat) {
    read(from, to) == Slice(s, from, to)
  }

  lemma SlicesRead(s: seq<Byte>)
    ensures ReadsFrom(Slices(s), s)
  {}

  /** The record's reading, over any buffer that shows these slices. */
  lemma RecordIs(token: seq<Byte>, read: Reader, flags: nat, field: seq<Byte>, name: seq<Byte>, next: seq<Byte>)
    requires 1 <= |field| <= 2 && |name| <= MAX_NAME && IsVarint(field) && Varint(field) == |name|
    requires var begin := flags + 1 + |field|;
      && read(flags, flags + 1) == [0] && read(flags + 1, begin) == field
      && read(begin, begin + |name|) == name && read(begin + |name|, begin + |name| + 1) == next
    ensures IsRecord(token, read, flags + 1 + |field|, |field|) <==>
      && |token| <= |name| && (|field| == 2 ==> |name| >= 128) && PathSuffix(name[|token|..]) && !GoesOn(next)
  {}

  ghost predicate GoNamed(token: seq<Byte>, s: seq<Byte>, begin: nat) {
    exists a: seq<Byte>, name: seq<Byte>, b: seq<Byte> ::
      IsGoName(token, s, a, name, b) && begin == |a| + 1 + |Canonical(|name|)|
  }

  lemma NextByte(b: seq<Byte>)
    ensures GoesOn(FirstOf(b, 1)) <==> PathGoesOn(b)
  {}

  lemma TokenReads(token: seq<Byte>, read: Reader, s: seq<Byte>, front: seq<Byte>, name: seq<Byte>, b: seq<Byte>)
    requires ReadsFrom(read, s) && s == front + name + b && |token| <= |name|
    ensures read(|front|, |front| + |token|) == token <==> token <= name
  {
    assert ReadsAt(read, s, |front|, |front| + |token|);
    assert Slice(s, |front|, |front| + |token|) == name[..|token|];
  }

  lemma NameReads(read: Reader, s: seq<Byte>, a: seq<Byte>, field: seq<Byte>, name: seq<Byte>, b: seq<Byte>)
    requires ReadsFrom(read, s) && s == a + [0] + field + name + b
    ensures var begin := |a| + 1 + |field|;
      && read(|a|, |a| + 1) == [0] && read(|a| + 1, begin) == field && read(begin, begin + |name|) == name
      && read(begin + |name|, begin + |name| + 1) == FirstOf(b, 1)
  {
    var begin := |a| + 1 + |field|;
    RecordSlices(a, field, name, b);
    assert ReadsAt(read, s, |a|, |a| + 1) && ReadsAt(read, s, |a| + 1, begin);
    assert ReadsAt(read, s, begin, begin + |name|) && ReadsAt(read, s, begin + |name|, begin + |name| + 1);
  }

  lemma NameIsRecord(token: seq<Byte>, read: Reader, s: seq<Byte>, a: seq<Byte>, name: seq<Byte>, b: seq<Byte>)
    requires ReadsFrom(read, s) && IsGoName(token, s, a, name, b)
    ensures var begin := |a| + 1 + |Canonical(|name|)|;
      && IsRecord(token, read, begin, |Canonical(|name|)|) && read(begin, begin + |token|) == token
  {
    var field := Canonical(|name|);
    NameReads(read, s, a, field, name, b);
    TokenReads(token, read, s, a + [0] + field, name, b);
    CanonicalIs(field, |name|);
    PathSuffixMeans(name[|token|..]);
    NextByte(b);
    RecordIs(token, read, |a|, field, name, FirstOf(b, 1));
  }

  lemma FieldWide(read: Reader, s: seq<Byte>, begin: nat, width: nat)
    requires ReadsFrom(read, s) && width <= begin <= |s|
    ensures |read(begin - width, begin)| == width
  {
    assert ReadsAt(read, s, begin - width, begin);
  }

  /** What an accepted record has read. */
  lemma RecordReads(token: seq<Byte>, read: Reader, begin: nat, width: nat)
      returns (flags: nat, field: seq<Byte>, name: seq<Byte>)
    requires 1 <= width <= 2 && IsRecord(token, read, begin, width)
    requires |read(begin - width, begin)| == width
    ensures begin == flags + 1 + width && |field| == width
    ensures read(flags, flags + 1) == [0] && read(flags + 1, begin) == field
    ensures IsVarint(field) && Varint(field) == |name| <= MAX_NAME && (width > 1 ==> |name| >= 128)
    ensures read(begin, begin + |name|) == name && |token| <= |name| && PathSuffix(name[|token|..])
    ensures !GoesOn(read(begin + |name|, begin + |name| + 1))
  {
    flags, field := begin - width - 1, read(begin - width, begin);
    name := read(begin, begin + Varint(field));
  }

  lemma RecordJoins(read: Reader, s: seq<Byte>, flags: nat, field: seq<Byte>, name: seq<Byte>)
      returns (a: seq<Byte>, b: seq<Byte>)
    requires ReadsFrom(read, s) && flags + 1 + |field| <= |s| && read(flags, flags + 1) == [0]
    requires read(flags + 1, flags + 1 + |field|) == field
    requires read(flags + 1 + |field|, flags + 1 + |field| + |name|) == name
    ensures s == a + [0] + field + name + b && |a| == flags
  {
    var begin := flags + 1 + |field|;
    assert ReadsAt(read, s, flags, flags + 1) && ReadsAt(read, s, flags + 1, begin);
    assert ReadsAt(read, s, begin, begin + |name|);
    a, b := s[..flags], s[begin + |name|..];
  }

  lemma RecordNames(token: seq<Byte>, read: Reader, s: seq<Byte>, begin: nat, width: nat)
    requires ReadsFrom(read, s) && begin <= |s| && 1 <= width <= 2 && IsRecord(token, read, begin, width)
    requires read(begin, begin + |token|) == token
    ensures GoNamed(token, s, begin)
  {
    FieldWide(read, s, begin, width);
    var flags, field, name := RecordReads(token, read, begin, width);
    var a, b := RecordJoins(read, s, flags, field, name);
    NameReads(read, s, a, field, name, b);
    TokenReads(token, read, s, a + [0] + field, name, b);
    CanonicalIs(field, |name|);
    PathSuffixMeans(name[|token|..]);
    NextByte(b);
    assert IsGoName(token, s, a, name, b);
  }

  lemma OneOfTwo(x: Exception, token: seq<Byte>, read: Reader, begin: nat)
    requires x.kind == GoImportName
    ensures GoAt(x, token, read, begin) <==>
      read(begin, begin + |token|) == token && (IsRecord(token, read, begin, 1) || IsRecord(token, read, begin, 2))
  {}

  /** The text is approved in a record exactly when it begins a Go import name that is
      written out in full. */
  lemma RecordMeans(token: seq<Byte>, read: Reader, s: seq<Byte>, begin: nat, x: Exception)
    requires ReadsFrom(read, s) && begin <= |s| && x.kind == GoImportName
    ensures GoAt(x, token, read, begin) <==> GoNamed(token, s, begin)
  {
    OneOfTwo(x, token, read, begin);
    if GoAt(x, token, read, begin) {
      RecordNames(token, read, s, begin, if IsRecord(token, read, begin, 1) then 1 else 2);
    }
    if GoNamed(token, s, begin) {
      var a: seq<Byte>, name: seq<Byte>, b: seq<Byte> :|
        IsGoName(token, s, a, name, b) && begin == |a| + 1 + |Canonical(|name|)|;
      NameIsRecord(token, read, s, a, name, b);
    }
  }

  // ---- Go's symbols ----

  /** What follows the text in a symbol: path elements, type names, and perhaps a middle
      dot and a number. */
  ghost predicate SymbolForm(suffix: seq<Byte>) {
    exists path: seq<seq<Byte>>, names: seq<seq<Byte>>, scope: seq<Byte> ::
      FormedFrom(suffix, path, names, scope)
  }

  ghost predicate FormedFrom(suffix: seq<Byte>, path: seq<seq<Byte>>, names: seq<seq<Byte>>, scope: seq<Byte>) {
    && path != [] && AreWords(path, true) && names != [] && AreWords(names, false)
    && (scope == []
        || (|scope| > 2 && scope[0] == 0xc2 && scope[1] == 0xb7
            && forall k :: 2 <= k < |scope| ==> '0' as int <= scope[k] <= '9' as int))
    && suffix == Marked('/' as int, path) + Marked('.' as int, names) + scope
  }

  lemma ScopeMeans(scope: seq<Byte>)
    ensures ScopeSuffix(scope) <==>
      || scope == []
      || (|scope| > 2 && scope[0] == 0xc2 && scope[1] == 0xb7
          && forall k :: 2 <= k < |scope| ==> '0' as int <= scope[k] <= '9' as int)
  {
    if |scope| > 2 {
      var rest := scope[2..];
      assert forall k :: 2 <= k < |scope| ==> scope[k] == rest[k - 2];
      assert forall k :: 0 <= k < |rest| ==> rest[k] in rest;
    }
  }

  lemma SuffixMeans(suffix: seq<Byte>)
    ensures SymbolSuffix(suffix) <==> SymbolForm(suffix)
  {
    if SymbolSuffix(suffix) {
      var a: nat, b: nat :| a <= |suffix| && b <= |suffix| && SymbolParts(suffix, a, b);
      PathSuffixMeans(suffix[..a]);
      TypeSuffixMeans(suffix[a..b]);
      ScopeMeans(suffix[b..]);
      var path :| AreWords(path, true) && suffix[..a] == Marked('/' as int, path);
      var names :| names != [] && AreWords(names, false) && suffix[a..b] == Marked('.' as int, names);
      assert suffix == suffix[..a] + suffix[a..b] + suffix[b..];
      assert FormedFrom(suffix, path, names, suffix[b..]);
    }
    if SymbolForm(suffix) {
      var path: seq<seq<Byte>>, names: seq<seq<Byte>>, scope: seq<Byte> :| FormedFrom(suffix, path, names, scope);
      FormIsSuffix(suffix, path, names, scope);
    }
  }

  lemma FormIsSuffix(suffix: seq<Byte>, path: seq<seq<Byte>>, names: seq<seq<Byte>>, scope: seq<Byte>)
    requires FormedFrom(suffix, path, names, scope)
    ensures SymbolSuffix(suffix)
  {
    var p, n := Marked('/' as int, path), Marked('.' as int, names);
    PathSuffixMeans(p);
    TypeSuffixMeans(n);
    ScopeMeans(scope);
    assert suffix[..|p|] == p && suffix[|p|..|p| + |n|] == n && suffix[|p| + |n|..] == scope;
    assert SymbolParts(suffix, |p|, |p| + |n|);
  }

  /** `type:.eq.`, the token and its suffix stand between a NUL, or the start, and a NUL. */
  ghost predicate IsGoSymbol(token: seq<Byte>, s: seq<Byte>, a: seq<Byte>, suffix: seq<Byte>, b: seq<Byte>) {
    && s == a + [116, 121, 112, 101, 58, 46, 101, 113, 46] + token + suffix + [0] + b
    && (a != [] ==> a[|a| - 1] == 0)
    && 0 !in token && |token| + |suffix| <= MAX_NAME && SymbolForm(suffix)
  }

  ghost predicate GoSymbolAt(token: seq<Byte>, s: seq<Byte>, begin: nat) {
    exists a: seq<Byte>, suffix: seq<Byte>, b: seq<Byte> :: IsGoSymbol(token, s, a, suffix, b) && begin == |a| + 9
  }

  lemma {:induction false} FirstNulAt(text: seq<Byte>, rest: seq<Byte>)
    requires 0 !in text
    ensures FirstNul(text + [0] + rest) == Some(|text|)
  {
    if text != [] {
      assert (text + [0] + rest)[1..] == text[1..] + [0] + rest;
      FirstNulAt(text[1..], rest);
    }
  }

  lemma {:induction false} FirstNulFirst(text: seq<Byte>)
    requires FirstNul(text).Some?
    ensures 0 !in text[..FirstNul(text).value]
  {
    if text[0] != 0 {
      FirstNulFirst(text[1..]);
      var n := FirstNul(text).value;
      assert text[..n] == [text[0]] + text[1..][..n - 1];
    }
  }

  lemma {:induction false} NoNulIn(words: seq<seq<Byte>>, mark: Byte, dashes: bool)
    requires AreWords(words, dashes) && mark != 0
    ensures 0 !in Marked(mark, words)
  {
    if words != [] {
      assert words[0] in words && forall w :: w in words[1..] ==> w in words;
      NoNulIn(words[1..], mark, dashes);
    }
  }

  lemma NoNulInForm(suffix: seq<Byte>)
    requires SymbolForm(suffix)
    ensures 0 !in suffix
  {
    var path: seq<seq<Byte>>, names: seq<seq<Byte>>, scope: seq<Byte> :| FormedFrom(suffix, path, names, scope);
    NoNulIn(path, '/' as int, true);
    NoNulIn(names, '.' as int, false);
  }

  lemma SymbolSlices(a: seq<Byte>, token: seq<Byte>, suffix: seq<Byte>, b: seq<Byte>)
    requires |token| + |suffix| <= MAX_NAME
    ensures var s, begin := a + EQUALITY + token + suffix + [0] + b, |a| + |EQUALITY|;
      && Slice(s, |a|, begin) == EQUALITY && (a != [] ==> Slice(s, |a| - 1, |a|) == [a[|a| - 1]])
      && Slice(s, begin, begin + |token|) == token
      && Slice(s, begin, begin + MAX_NAME + 1)
        == (token + suffix) + [0] + FirstOf(b, MAX_NAME - |token| - |suffix|)
  {
    var s, begin := a + EQUALITY + token + suffix + [0] + b, |a| + |EQUALITY|;
    assert s[|a|..begin] == EQUALITY && s[begin..begin + |token|] == token;
    var symbol := Slice(s, begin, begin + MAX_NAME + 1);
    assert s[begin..] == (token + suffix) + [0] + b;
    assert a != [] ==> s[|a| - 1..|a|] == [a[|a| - 1]];
  }

  lemma SymbolIs(token: seq<Byte>, read: Reader, start: nat, before: seq<Byte>, symbol: seq<Byte>)
    requires var begin := start + |EQUALITY|;
      && read(start, begin) == EQUALITY && read(begin, begin + MAX_NAME + 1) == symbol
      && (start > 0 ==> read(start - 1, start) == before)
    ensures IsSymbol(token, read, start + |EQUALITY|) <==>
      && (start > 0 ==> before == [0])
      && FirstNul(symbol).Some? && SymbolSuffix(Slice(symbol, |token|, FirstNul(symbol).value))
  {}

  lemma SymbolFound(token: seq<Byte>, suffix: seq<Byte>, rest: seq<Byte>)
    requires 0 !in token && SymbolForm(suffix)
    ensures var symbol := (token + suffix) + [0] + rest;
      FirstNul(symbol).Some? && SymbolSuffix(Slice(symbol, |token|, FirstNul(symbol).value))
  {
    var symbol := (token + suffix) + [0] + rest;
    NoNulInForm(suffix);
    FirstNulAt(token + suffix, rest);
    assert symbol[|token|..|token| + |suffix|] == suffix;
    SuffixMeans(suffix);
  }

  lemma SymbolShows(read: Reader, a: seq<Byte>, token: seq<Byte>, suffix: seq<Byte>, b: seq<Byte>, s: seq<Byte>)
    requires ReadsFrom(read, s) && s == a + EQUALITY + token + suffix + [0] + b && |token| + |suffix| <= MAX_NAME
    ensures var begin := |a| + |EQUALITY|;
      && read(|a|, begin) == EQUALITY && (a != [] ==> read(|a| - 1, |a|) == [a[|a| - 1]])
      && read(begin, begin + |token|) == token
      && read(begin, begin + MAX_NAME + 1) == (token + suffix) + [0] + FirstOf(b, MAX_NAME - |token| - |suffix|)
  {
    var begin := |a| + |EQUALITY|;
    SymbolSlices(a, token, suffix, b);
    assert ReadsAt(read, s, |a|, begin) && ReadsAt(read, s, begin, begin + |token|);
    assert ReadsAt(read, s, begin, begin + MAX_NAME + 1);
    assert a != [] ==> ReadsAt(read, s, |a| - 1, |a|);
  }

  lemma SymbolStands(token: seq<Byte>, read: Reader, s: seq<Byte>, a: seq<Byte>, suffix: seq<Byte>, b: seq<Byte>)
    requires ReadsFrom(read, s) && IsGoSymbol(token, s, a, suffix, b)
    ensures var begin := |a| + |EQUALITY|;
      read(begin, begin + |token|) == token && IsSymbol(token, read, begin)
  {
    var rest := FirstOf(b, MAX_NAME - |token| - |suffix|);
    SymbolShows(read, a, token, suffix, b, s);
    SymbolFound(token, suffix, rest);
    SymbolIs(token, read, |a|, if a == [] then [] else [a[|a| - 1]], (token + suffix) + [0] + rest);
  }

  lemma SymbolCuts(token: seq<Byte>, symbol: seq<Byte>) returns (suffix: seq<Byte>)
    requires FirstNul(symbol).Some? && SymbolSuffix(Slice(symbol, |token|, FirstNul(symbol).value))
    requires |symbol| <= MAX_NAME + 1 && (|token| <= |symbol| ==> symbol[..|token|] == token)
    ensures SymbolSuffix(suffix) && symbol[..FirstNul(symbol).value] == token + suffix
    ensures 0 !in token && |token| + |suffix| <= MAX_NAME
  {
    var end := FirstNul(symbol).value;
    suffix := Slice(symbol, |token|, end);
    FirstNulFirst(symbol);
    assert suffix != [];
    assert token == symbol[..end][..|token|] && suffix == symbol[..end][|token|..];
  }

  lemma SymbolReads(token: seq<Byte>, read: Reader, begin: nat) returns (start: nat, symbol: seq<Byte>)
    requires IsSymbol(token, read, begin)
    ensures begin == start + |EQUALITY| && read(start, begin) == EQUALITY
    ensures start > 0 ==> read(start - 1, start) == [0]
    ensures symbol == read(begin, begin + MAX_NAME + 1) && FirstNul(symbol).Some?
    ensures SymbolSuffix(Slice(symbol, |token|, FirstNul(symbol).value))
  {
    start, symbol := begin - |EQUALITY|, read(begin, begin + MAX_NAME + 1);
  }

  lemma SymbolLies(read: Reader, s: seq<Byte>, start: nat, symbol: seq<Byte>, n: nat)
      returns (a: seq<Byte>, b: seq<Byte>)
    requires ReadsFrom(read, s) && start + |EQUALITY| <= |s| && read(start, start + |EQUALITY|) == EQUALITY
    requires symbol == read(start + |EQUALITY|, start + |EQUALITY| + MAX_NAME + 1)
    requires n < |symbol| && symbol[n] == 0 && (start > 0 ==> read(start - 1, start) == [0])
    ensures s == a + EQUALITY + symbol[..n] + [0] + b && |a| == start && |symbol| <= MAX_NAME + 1
    ensures a != [] ==> a[|a| - 1] == 0
  {
    var begin := start + |EQUALITY|;
    assert ReadsAt(read, s, start, begin) && ReadsAt(read, s, begin, begin + MAX_NAME + 1);
    assert start > 0 ==> ReadsAt(read, s, start - 1, start);
    a, b := s[..start], s[begin + n + 1..];
    assert forall k :: 0 <= k < |symbol| ==> symbol[k] == s[begin + k];
    assert s[begin..begin + n] == symbol[..n];
    assert s == a + s[start..begin] + s[begin..begin + n] + [s[begin + n]] + b;
  }

  lemma TokenLies(token: seq<Byte>, read: Reader, s: seq<Byte>, begin: nat, symbol: seq<Byte>)
    requires ReadsFrom(read, s) && read(begin, begin + |token|) == token && begin <= |s|
    requires symbol == read(begin, begin + MAX_NAME + 1)
    ensures |token| <= |symbol| ==> symbol[..|token|] == token
  {
    assert ReadsAt(read, s, begin, begin + |token|) && ReadsAt(read, s, begin, begin + MAX_NAME + 1);
  }

  lemma SymbolSplits(token: seq<Byte>, read: Reader, s: seq<Byte>, start: nat, symbol: seq<Byte>)
      returns (a: seq<Byte>, suffix: seq<Byte>, b: seq<Byte>)
    requires ReadsFrom(read, s) && start + |EQUALITY| <= |s| && read(start, start + |EQUALITY|) == EQUALITY
    requires start > 0 ==> read(start - 1, start) == [0]
    requires symbol == read(start + |EQUALITY|, start + |EQUALITY| + MAX_NAME + 1) && FirstNul(symbol).Some?
    requires |token| <= |symbol| ==> symbol[..|token|] == token
    requires SymbolSuffix(Slice(symbol, |token|, FirstNul(symbol).value))
    ensures IsGoSymbol(token, s, a, suffix, b) && start == |a|
  {
    a, b := SymbolLies(read, s, start, symbol, FirstNul(symbol).value);
    suffix := SymbolCuts(token, symbol);
    SuffixMeans(suffix);
    Nest(a + EQUALITY, token, suffix);
  }

  /** It is approved in a symbol exactly when it stands in a compiler's equality symbol. */
  lemma SymbolMeans(token: seq<Byte>, read: Reader, s: seq<Byte>, begin: nat, x: Exception)
    requires ReadsFrom(read, s) && begin <= |s| && x.kind == GoEqualitySymbol
    ensures GoAt(x, token, read, begin) <==> GoSymbolAt(token, s, begin)
  {
    if GoAt(x, token, read, begin) {
      var start, symbol := SymbolReads(token, read, begin);
      TokenLies(token, read, s, begin, symbol);
      var a, suffix, b := SymbolSplits(token, read, s, start, symbol);
    }
    if GoSymbolAt(token, s, begin) {
      var a: seq<Byte>, suffix: seq<Byte>, b: seq<Byte> :| IsGoSymbol(token, s, a, suffix, b) && begin == |a| + 9;
      SymbolStands(token, read, s, a, suffix, b);
    }
  }
}
