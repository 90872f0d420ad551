/** units/units.go: the size units, the suffix table, `ParseSize`, `MaxSize` and `MinSize`. */
module Units {
  import opened Wrappers
  import opened Text

  /** `type Size int64`, counted in bits. */
  type Size = int

  const Bit: Size := 1
  const Byte: Size := 8 * Bit

  const KiB: Size := 1024 * Byte
  const MiB: Size := 1024 * KiB
  const GiB: Size := 1024 * MiB
  const TiB: Size := 1024 * GiB

  const KB: Size := 1000 * Byte
  const MB: Size := 1000 * KB
  const GB: Size := 1000 * MB
  const TB: Size := 1000 * GB

  const Kb: Size := 1000 * Bit
  const Mb: Size := 1000 * Kb
  const Gb: Size := 1000 * Mb

  /** `suffixValues[k]` for the binary prefix letters `K`, `M`, `G`, `T`. */
  function BinaryUnit(c: char): Option<Size> {
    if c == 'K' then Some(KiB) else if c == 'M' then Some(MiB)
    else if c == 'G' then Some(GiB) else if c == 'T' then Some(TiB) else None
  }

  /** `suffixValues[k]` for `KB`, `MB`, `GB`, `TB`. */
  function DecimalByteUnit(c: char): Option<Size> {
    if c == 'K' then Some(KB) else if c == 'M' then Some(MB)
    else if c == 'G' then Some(GB) else if c == 'T' then Some(TB) else None
  }

  /** `suffixValues[k]` for the bit units `Kb`, `Mb`, `Gb` and their `/s` and `ps` spellings. */
  function DecimalBitUnit(c: char): Option<Size> {
    if c == 'K' then Some(Kb) else if c == 'M' then Some(Mb) else if c == 'G' then Some(Gb) else None
  }

  /** The lookup `suffixValues[k]`: `None` when `k` is not a key. The table's 27 keys fall into
      five shapes (a single letter, `<P>B`, `<P>b`, `<P>iB`, `<P>b/s` or `<P>bps`); `SuffixTable`
      lists every entry. */
  function SuffixValue(k: string): Option<Size> {
    if |k| == 1 then
      if k[0] == 'b' then Some(Bit)
      else if k[0] == 'B' then Some(Byte)
      else if 'a' <= k[0] <= 'z' then BinaryUnit((k[0] as int - 32) as char)
      else BinaryUnit(k[0])
    else if |k| == 2 && k[1] == 'B' then DecimalByteUnit(k[0])
    else if |k| == 2 && k[1] == 'b' then DecimalBitUnit(k[0])
    else if |k| == 3 && k[1] == 'i' && k[2] == 'B' then BinaryUnit(k[0])
    else if |k| == 4 && k[1] == 'b' && ((k[2] == '/' && k[3] == 's') || (k[2] == 'p' && k[3] == 's')) then DecimalBitUnit(k[0])
    else None
  }

  predicate IsKey(k: string) {
    SuffixValue(k).Some?
  }

  /** The table `suffixValues`, entry by entry. */
  lemma SuffixTable()
    ensures SuffixValue("b") == Some(Bit) && SuffixValue("B") == Some(Byte)
    ensures SuffixValue("k") == Some(KiB) && SuffixValue("K") == Some(KiB)
    ensures SuffixValue("KB") == Some(KB) && SuffixValue("KiB") == Some(KiB)
    ensures SuffixValue("Kb") == Some(Kb) && SuffixValue("Kb/s") == Some(Kb) && SuffixValue("Kbps") == Some(Kb)
    ensures SuffixValue("m") == Some(MiB) && SuffixValue("M") == Some(MiB)
    ensures SuffixValue("MB") == Some(MB) && SuffixValue("MiB") == Some(MiB)
    ensures SuffixValue("Mb") == Some(Mb) && SuffixValue("Mb/s") == Some(Mb) && SuffixValue("Mbps") == Some(Mb)
    ensures SuffixValue("g") == Some(GiB) && SuffixValue("G") == Some(GiB)
    ensures SuffixValue("GB") == Some(GB) && SuffixValue("GiB") == Some(GiB)
    ensures SuffixValue("Gb") == Some(Gb) && SuffixValue("Gb/s") == Some(Gb) && SuffixValue("Gbps") == Some(Gb)
    ensures SuffixValue("t") == Some(TiB) && SuffixValue("T") == Some(TiB)
    ensures SuffixValue("TB") == Some(TB) && SuffixValue("TiB") == Some(TiB)
  {
  }

  /** The longest key of the table. */
  const MaxKeyLength: nat := 4

  /** One entry of `pairs`. */
  datatype Pair = Pair(suffix: string, val: Size)

  /** `pairs` as `init` leaves it: one pair per table entry, longest suffix first.
      Go's map iteration and `sort.Slice` may order keys of equal length differently;
      `FirstMatchIsLongest` shows that the order among them does not matter. */
  const Pairs: seq<Pair> := [
    Pair("Kb/s", Kb), Pair("Kbps", Kb), Pair("Mb/s", Mb), Pair("Mbps", Mb), Pair("Gb/s", Gb), Pair("Gbps", Gb),
    Pair("KiB", KiB), Pair("MiB", MiB), Pair("GiB", GiB), Pair("TiB", TiB),
    Pair("KB", KB), Pair("Kb", Kb), Pair("MB", MB), Pair("Mb", Mb), Pair("GB", GB), Pair("Gb", Gb), Pair("TB", TB),
    Pair("b", Bit), Pair("B", Byte), Pair("k", KiB), Pair("K", KiB), Pair("m", MiB),
    Pair("M", MiB), Pair("g", GiB), Pair("G", GiB), Pair("t", TiB), Pair("T", TiB)
  ]

  /** What `init` guarantees of `pairs`: exactly the table's entries, sorted by descending suffix length. */
  ghost predicate ValidPairs(ps: seq<Pair>) {
    && (forall i :: 0 <= i < |ps| ==> SuffixValue(ps[i].suffix) == Some(ps[i].val))
    && (forall k :: IsKey(k) ==> exists i :: 0 <= i < |ps| && ps[i].suffix == k)
    && (forall i, j :: 0 <= i < j < |ps| ==> |ps[i].suffix| >= |ps[j].suffix|)
  }

  lemma PairsAreValid()
    ensures ValidPairs(Pairs)
  {
    PairsHoldTableValues();
    PairsAreSortedByLength();
    PairsCoverFourLetterKeys();
    PairsCoverThreeLetterKeys();
    PairsCoverTwoLetterKeys();
    PairsCoverOneLetterKeys();
    KeyFacts();
  }

  lemma PairsHoldTableValues()
    ensures forall i :: 0 <= i < |Pairs| ==> SuffixValue(Pairs[i].suffix) == Some(Pairs[i].val)
  {
    PairsHoldSlashRateValues();
    PairsHoldRateValues();
    PairsHoldBinaryValues();
    PairsHoldDecimalValues();
    PairsHoldLetterValues();
  }

  lemma PairsHoldSlashRateValues()
    ensures forall i :: 0 <= i < 3 ==> SuffixValue(Pairs[i].suffix) == Some(Pairs[i].val)
  {
    SuffixTable();
  }

  lemma PairsHoldRateValues()
    ensures forall i :: 3 <= i < 6 ==> SuffixValue(Pairs[i].suffix) == Some(Pairs[i].val)
  {
    SuffixTable();
  }

  lemma PairsHoldBinaryValues()
    ensures forall i :: 6 <= i < 10 ==> SuffixValue(Pairs[i].suffix) == Some(Pairs[i].val)
  {
    SuffixTable();
  }

  lemma PairsHoldDecimalValues()
    ensures forall i :: 10 <= i < 17 ==> SuffixValue(Pairs[i].suffix) == Some(Pairs[i].val)
  {
    SuffixTable();
  }

  lemma PairsHoldLetterValues()
    ensures forall i :: 17 <= i < 27 ==> SuffixValue(Pairs[i].suffix) == Some(Pairs[i].val)
  {
    SuffixTable();
  }

  /** The suffix length of the `i`-th pair: four, three, two, then one letter. */
  function PairLength(i: int): nat {
    if i < 6 then 4 else if i < 10 then 3 else if i < 17 then 2 else 1
  }

  lemma PairsAreSortedByLength()
    ensures forall i, j :: 0 <= i < j < |Pairs| ==> |Pairs[i].suffix| >= |Pairs[j].suffix|
  {
    assert forall i :: 0 <= i < |Pairs| ==> |Pairs[i].suffix| == PairLength(i);
  }

  lemma PairsCoverFourLetterKeys()
    ensures forall k :: IsKey(k) && |k| == 4 ==> exists i :: 0 <= i < |Pairs| && Pairs[i].suffix == k
  {
    forall k | IsKey(k) && |k| == 4
      ensures exists i :: 0 <= i < |Pairs| && Pairs[i].suffix == k
    {
      var i := if k[0] == 'K' then 0 else if k[0] == 'M' then 2 else 4;
      var j := if k[2] == '/' then i else i + 1;
      assert Pairs[j].suffix == k;
    }
  }

  lemma PairsCoverThreeLetterKeys()
    ensures forall k :: IsKey(k) && |k| == 3 ==> exists i :: 0 <= i < |Pairs| && Pairs[i].suffix == k
  {
    forall k | IsKey(k) && |k| == 3
      ensures exists i :: 0 <= i < |Pairs| && Pairs[i].suffix == k
    {
      var i := if k[0] == 'K' then 6 else if k[0] == 'M' then 7 else if k[0] == 'G' then 8 else 9;
      assert Pairs[i].suffix == k;
    }
  }

  lemma PairsCoverTwoLetterKeys()
    ensures forall k :: IsKey(k) && |k| == 2 ==> exists i :: 0 <= i < |Pairs| && Pairs[i].suffix == k
  {
    forall k | IsKey(k) && |k| == 2
      ensures exists i :: 0 <= i < |Pairs| && Pairs[i].suffix == k
    {
      var i := if k[0] == 'K' then 10 else if k[0] == 'M' then 12 else if k[0] == 'G' then 14 else 16;
      var j := if k[1] == 'B' then i else i + 1;
      assert Pairs[j].suffix == k;
    }
  }

  lemma PairsCoverOneLetterKeys()
    ensures forall k :: IsKey(k) && |k| == 1 ==> exists i :: 0 <= i < |Pairs| && Pairs[i].suffix == k
  {
    forall k | IsKey(k) && |k| == 1
      ensures exists i :: 0 <= i < |Pairs| && Pairs[i].suffix == k
    {
      var c := k[0];
      var i := if c == 'b' then 17 else if c == 'B' then 18 else if c == 'k' then 19 else if c == 'K' then 20
        else if c == 'm' then 21 else if c == 'M' then 22 else if c == 'g' then 23 else if c == 'G' then 24
        else if c == 't' then 25 else 26;
      assert Pairs[i].suffix == k;
    }
  }

  // ---------------------------------------------------------------------------
  // Character classes of the two regular expressions

  /** The bracket expressions of `re`; `Suffix(false)` is `[bBkKmMgGtTi/s]` as written,
      `Suffix(true)` adds the `p` that the table's `bps` keys need. */
  datatype CharClass = Space | Number | Digit | Suffix(withP: bool)

  const Written: CharClass := Suffix(false)
  const Intended: CharClass := Suffix(true)

  predicate In(c: char, cls: CharClass) {
    match cls
    case Space => c == ' ' || '\t' <= c <= '\r'   // [[:space:]]: space, \t, \n, \v, \f, \r
    case Number => c == '.' || '0' <= c <= '9'     // [.[:digit:]]
    case Digit => '0' <= c <= '9'
    case Suffix(withP) =>
      || c == 'b' || c == 'B' || c == 'k' || c == 'K' || c == 'm' || c == 'M' || c == 'g' || c == 'G'
      || c == 't' || c == 'T' || c == 'i' || c == '/' || c == 's' || (withP && c == 'p')
  }

  /** Characters `replaceRegex` (`[[:space:][:alpha:]/]+`) deletes. */
  predicate Stripped(c: char) {
    In(c, Space) || ('A' <= c <= 'Z') || ('a' <= c <= 'z') || c == '/'
  }

  lemma SuffixCharFacts(c: char, withP: bool)
    requires In(c, Suffix(withP))
    ensures !In(c, Space) && !In(c, Number) && Stripped(c)
  {
  }

  predicate AllIn(s: string, cls: CharClass) {
    forall i :: 0 <= i < |s| ==> In(s[i], cls)
  }

  /** Length of the longest prefix of `s` made of characters of `cls`. */
  function Span(s: string, cls: CharClass): (n: nat)
    ensures n <= |s| && AllIn(s[..n], cls)
    ensures n < |s| ==> !In(s[n], cls)
  {
    if s == [] || !In(s[0], cls) then 0 else 1 + Span(s[1..], cls)
  }

  lemma {:induction false} SpanIs(s: string, cls: CharClass, n: nat)
    requires n <= |s| && AllIn(s[..n], cls)
    requires n < |s| ==> !In(s[n], cls)
    ensures Span(s, cls) == n
  {
    if n > 0 {
      assert s[..n][0] == s[0];
      assert s[1..][..n - 1] == s[..n][1..];
      SpanIs(s[1..], cls, n - 1);
    }
  }

  // ---------------------------------------------------------------------------
  // The shape check `re.MatchString(s)`

  /** `s` splits at `i < j < k` into spaces, number characters, suffix characters and spaces. */
  ghost predicate MatchesAt(s: string, withP: bool, i: int, j: int, k: int) {
    && 0 <= i < j < k <= |s|
    && AllIn(s[..i], Space) && AllIn(s[i..j], Number) && AllIn(s[j..k], Suffix(withP)) && AllIn(s[k..], Space)
  }

  /** The language of `^[[:space:]]*[.[:digit:]]+[bBkKmMgGtTi/s]+[[:space:]]*$` (with `p` in the
      third bracket when `withP`). */
  ghost predicate RegexMatches(s: string, withP: bool) {
    exists i, j, k :: MatchesAt(s, withP, i, j, k)
  }

  /** The hand-coded shape check: the greedy split of `s` into the pattern's four parts. */
  predicate Shape(s: string, withP: bool) {
    var a := Span(s, Space);
    var b := a + Span(s[a..], Number);
    var c := b + Span(s[b..], Suffix(withP));
    a < b < c && AllIn(s[c..], Space)
  }

  /** Every string the shape check accepts matches the regular expression. */
  lemma ShapeMatches(s: string, withP: bool)
    requires Shape(s, withP)
    ensures RegexMatches(s, withP)
  {
    var a := Span(s, Space);
    var b := a + Span(s[a..], Number);
    var c := b + Span(s[b..], Suffix(withP));
    assert s[a..][..b - a] == s[a..b];
    assert s[b..][..c - b] == s[b..c];
    assert MatchesAt(s, withP, a, b, c);
  }

  /** The greedy split is the only split: every string the regular expression matches passes the
      shape check, at the very positions of the match. */
  lemma MatchIsShape(s: string, withP: bool, i: int, j: int, k: int)
    requires MatchesAt(s, withP, i, j, k)
    ensures Shape(s, withP)
    ensures Span(s, Space) == i && i + Span(s[i..], Number) == j && j + Span(s[j..], Suffix(withP)) == k
  {
    MatchSpans(s, withP, i, j, k);
    var a := Span(s, Space);
    var b := a + Span(s[a..], Number);
    var c := b + Span(s[b..], Suffix(withP));
    assert a == i && b == j && c == k;
    assert AllIn(s[c..], Space);
  }

  lemma MatchSpans(s: string, withP: bool, i: int, j: int, k: int)
    requires MatchesAt(s, withP, i, j, k)
    ensures Span(s, Space) == i && Span(s[i..], Number) == j - i && Span(s[j..], Suffix(withP)) == k - j
  {
    assert s[i..j][0] == s[i];
    assert s[..i] == s[0..i];
    SpanOfPart(s, 0, i, Space);
    assert s[j..k][0] == s[j];
    SuffixCharFacts(s[j], withP);
    SpanOfPart(s, i, j, Number);
    if k < |s| {
      assert s[k..][0] == s[k];
    }
    SpanOfPart(s, j, k, Suffix(withP));
  }

  /** A maximal run `s[i..j]` of `cls` characters is the span of `s[i..]`. */
  lemma SpanOfPart(s: string, i: int, j: int, cls: CharClass)
    requires 0 <= i <= j <= |s| && AllIn(s[i..j], cls)
    requires j < |s| ==> !In(s[j], cls)
    ensures Span(s[i..], cls) == j - i
  {
    assert s[i..][..j - i] == s[i..j];
    if j < |s| {
      assert s[i..][j - i] == s[j];
    }
    SpanIs(s[i..], cls, j - i);
  }

  /** The shape check accepts exactly the strings the regular expression matches. */
  lemma ShapeIsRegex(s: string, withP: bool)
    ensures Shape(s, withP) <==> RegexMatches(s, withP)
  {
    if Shape(s, withP) {
      ShapeMatches(s, withP);
    }
    if RegexMatches(s, withP) {
      var i, j, k :| MatchesAt(s, withP, i, j, k);
      MatchIsShape(s, withP, i, j, k);
    }
  }

  // ---------------------------------------------------------------------------
  // Stripping letters, spaces and '/' and reading the number

  /** `replaceRegex.ReplaceAllString(s, "")` */
  function Strip(s: string): (r: string)
    ensures |r| <= |s|
  {
    if s == [] then [] else (if Stripped(s[0]) then [] else [s[0]]) + Strip(s[1..])
  }

  lemma {:induction false} StripAppend(a: string, b: string)
    ensures Strip(a + b) == Strip(a) + Strip(b)
  {
    if a == [] {
      assert a + b == b;
    } else {
      assert (a + b)[0] == a[0];
      assert (a + b)[1..] == a[1..] + b;
      StripAppend(a[1..], b);
    }
  }

  lemma {:induction false} StripAll(s: string)
    requires forall i :: 0 <= i < |s| ==> Stripped(s[i])
    ensures Strip(s) == []
  {
    if s != [] {
      StripAll(s[1..]);
    }
  }

  lemma {:induction false} StripNone(s: string)
    requires AllIn(s, Number)
    ensures Strip(s) == s
  {
    if s != [] {
      StripNone(s[1..]);
    }
  }

  /** `strconv.ParseFloat` on a string of digits and dots, followed by the truncation `Size(value)`:
      the string must be digits, optionally a dot and more digits, with at least one digit;
      the result is the value of the digits before the dot. */
  function ParseDecimal(t: string): Option<nat> {
    var d := Span(t, Digit);
    var rest := t[d..];
    if (rest == [] || (rest[0] == '.' && AllIn(rest[1..], Digit))) && (d > 0 || |rest| > 1)
    then Some(DecimalValue(t[..d]))
    else None
  }

  lemma {:induction false} ParseDecimalOfNumber(n: nat, frac: string)
    requires AllIn(frac, Digit)
    ensures ParseDecimal(NatToString(n)) == Some(n)
    ensures ParseDecimal(NatToString(n) + "." + frac) == Some(n)
  {
    var d := NatToString(n);
    DecimalValueOfNatToString(n);
    assert d[..|d|] == d;
    SpanIs(d, Digit, |d|);
    var t := d + "." + frac;
    assert t[..|d|] == d;
    SpanIs(t, Digit, |d|);
    assert t[|d|..][1..] == frac;
  }

  // ---------------------------------------------------------------------------
  // The longest key of the table that ends the input

  lemma KeyFacts()
    ensures forall k :: IsKey(k) ==> 0 < |k| <= MaxKeyLength
    ensures forall k :: IsKey(k) ==> AllIn(k, Intended)
  {
  }

  /** A key's characters are never number characters and are all deleted by `replaceRegex`. */
  lemma KeyCharFacts(k: string, i: int)
    requires IsKey(k) && 0 <= i < |k|
    ensures !In(k[i], Number) && Stripped(k[i])
  {
    KeyFacts();
    SuffixCharFacts(k[i], true);
  }

  /** A string that starts with a number character is not a key. */
  lemma NumberStartIsNoKey(s: string)
    requires |s| > 0 && In(s[0], Number)
    ensures !IsKey(s)
  {
  }

  /** The longest key of length at most `n` that ends `s`. */
  function KeySuffixUpTo(s: string, n: nat): (r: Option<string>)
    ensures r.Some? ==> IsKey(r.value) && IsSuffix(r.value, s) && |r.value| <= n
    ensures r.Some? ==> forall k :: IsKey(k) && IsSuffix(k, s) && |k| <= n ==> |k| <= |r.value|
    ensures r.None? ==> forall k :: IsKey(k) && IsSuffix(k, s) ==> |k| > n
  {
    if n == 0 then KeyFacts(); None
    else if n <= |s| && IsKey(s[|s| - n..]) then Some(s[|s| - n..])
    else KeySuffixUpTo(s, n - 1)
  }

  /** The longest key of the table that is a suffix of `s`, if any. */
  function LongestKeySuffix(s: string): (r: Option<string>)
    ensures r.Some? ==> IsKey(r.value) && IsSuffix(r.value, s)
    ensures r.Some? ==> forall k :: IsKey(k) && IsSuffix(k, s) ==> |k| <= |r.value|
    ensures r.None? <==> forall k :: IsKey(k) ==> !IsSuffix(k, s)
  {
    KeyFacts();
    KeySuffixUpTo(s, MaxKeyLength)
  }

  /** Two suffixes of the same string with the same length are equal, so the longest key is unique. */
  lemma LongestKeyIsUnique(s: string, k: string)
    requires IsKey(k) && IsSuffix(k, s)
    requires forall k' :: IsKey(k') && IsSuffix(k', s) ==> |k'| <= |k|
    ensures LongestKeySuffix(s) == Some(k)
  {
  }

  /** The first pair whose suffix ends `s`, in any order `init` may produce, holds the longest key. */
  lemma FirstMatchIsLongest(ps: seq<Pair>, s: string, i: int)
    requires ValidPairs(ps)
    requires 0 <= i < |ps| && IsSuffix(ps[i].suffix, s)
    requires forall j :: 0 <= j < i ==> !IsSuffix(ps[j].suffix, s)
    ensures LongestKeySuffix(s) == Some(ps[i].suffix)
  {
    forall k | IsKey(k) && IsSuffix(k, s)
      ensures |k| <= |ps[i].suffix|
    {
      var j :| 0 <= j < |ps| && ps[j].suffix == k;
      assert i <= j;
    }
    LongestKeyIsUnique(s, ps[i].suffix);
  }

  // ---------------------------------------------------------------------------
  // ParseSize

  datatype ParseError =
    | BadFormat1(input: string)   // "bad format 1: <s>"
    | BadFormat2(number: string)  // "bad format 2: <stripped s>"

  /** What `ParseSize` computes; `withP` says whether the shape check admits `p`. */
  function ParseWith(s: string, withP: bool): Result<Size, ParseError> {
    if IsKey(s) then Ok(SuffixValue(s).value)
    else if !Shape(s, withP) then Err(BadFormat1(s))
    else match LongestKeySuffix(s)
      case None => Ok(0)
      case Some(k) =>
        var t := Strip(s);
        match ParseDecimal(t)
        case None => Err(BadFormat2(t))
        case Some(v) => Ok(v * SuffixValue(k).value)
  }

  /** `ParseSize` as written. */
  function Parse(s: string): Result<Size, ParseError> {
    ParseWith(s, false)
  }

  /** `ParseSize` with `p` in the shape check's suffix class. */
  function ParseIntended(s: string): Result<Size, ParseError> {
    ParseWith(s, true)
  }

  /** `ParseSize(s)`: the exact-key shortcut, the shape check, then the first pair (longest suffix)
      whose suffix ends `s`. */
  method ParseSize(s: string) returns (r: Result<Size, ParseError>)
    ensures r == Parse(s)
  {
    if IsKey(s) {
      return Ok(SuffixValue(s).value);
    }
    if !Shape(s, false) {
      return Err(BadFormat1(s));
    }
    PairsAreValid();
    var size: Size := 0;
    var i := 0;
    while i < |Pairs|
      invariant 0 <= i <= |Pairs|
      invariant forall j :: 0 <= j < i ==> !IsSuffix(Pairs[j].suffix, s)
    {
      var pair := Pairs[i];
      if IsSuffix(pair.suffix, s) {
        FirstMatchIsLongest(Pairs, s, i);
        var t := Strip(s);
        var value := ParseDecimal(t);
        if value.None? {
          return Err(BadFormat2(t));
        }
        size := value.value * pair.val;
        return Ok(size);
      }
      i := i + 1;
    }
    return Ok(size);
  }

  /** A longer suffix of `num + k` than `k` reaches into `num`. */
  lemma LongerSuffixReachesNumber(num: string, k: string, k': string)
    requires |num| > 0 && IsSuffix(k', num + k) && |k'| > |k|
    ensures k'[|k'| - |k| - 1] == num[|num| - 1]
  {
    var s := num + k;
    assert k'[|k'| - |k| - 1] == s[|s| - |k| - 1];
  }

  /** The key written after a number part is the longest key ending the input. */
  lemma KeyAfterNumberIsLongest(num: string, k: string)
    requires |num| > 0 && AllIn(num, Number)
    requires IsKey(k)
    ensures LongestKeySuffix(num + k) == Some(k)
  {
    var s := num + k;
    forall k' | IsKey(k') && IsSuffix(k', s)
      ensures |k'| <= |k|
    {
      if |k'| > |k| {
        LongerSuffixReachesNumber(num, k, k');
        KeyCharFacts(k', |k'| - |k| - 1);
      }
    }
    assert s[|s| - |k|..] == k;
    LongestKeyIsUnique(s, k);
  }

  /** A number part followed by a key passes the shape check when the key's characters are in the
      suffix class; what is stripped off is exactly the key. */
  lemma NumberThenKeyShape(num: string, k: string, withP: bool)
    requires |num| > 0 && AllIn(num, Number)
    requires IsKey(k) && AllIn(k, Suffix(withP))
    ensures !IsKey(num + k) && Shape(num + k, withP) && Strip(num + k) == num
  {
    var s := num + k;
    assert s[0] == num[0];
    NumberStartIsNoKey(s);
    assert s[..0] == [] && s[0..|num|] == num && s[|num|..|s|] == k && s[|s|..] == [];
    MatchIsShape(s, withP, 0, |num|, |s|);
    StripAppend(num, k);
    StripNone(num);
    forall i | 0 <= i < |k|
      ensures Stripped(k[i])
    {
      KeyCharFacts(k, i);
    }
    StripAll(k);
  }

  /** A number part followed directly by a key whose characters pass the shape check: the key
      written is the unit, and the number part alone is what is read. */
  lemma NumberThenKey(num: string, k: string, withP: bool)
    requires |num| > 0 && AllIn(num, Number)
    requires IsKey(k) && AllIn(k, Suffix(withP))
    ensures ParseWith(num + k, withP) ==
      match ParseDecimal(num)
      case None => Err(BadFormat2(num))
      case Some(v) => Ok(v * SuffixValue(k).value)
  {
    NumberThenKeyShape(num, k, withP);
    KeyAfterNumberIsLongest(num, k);
  }

  lemma {:induction false} DigitsAreNumberChars(s: string)
    requires AllDigits(s)
    ensures AllIn(s, Number)
  {
  }

  /** `ParseSize("<n><key>")` is `n` times the key's unit for every key whose characters
      pass the shape check. */
  lemma ParseIntegerTimesUnit(n: nat, k: string, withP: bool)
    requires IsKey(k) && AllIn(k, Suffix(withP))
    ensures ParseWith(NatToString(n) + k, withP) == Ok(n * SuffixValue(k).value)
  {
    ParseDecimalOfNumber(n, "");
    DigitsAreNumberChars(NatToString(n));
    NumberThenKey(NatToString(n), k, withP);
  }

  /** A fractional mantissa is truncated before scaling: `"<n>.<digits><key>"` gives `n` units. */
  lemma ParseTruncatesFraction(n: nat, frac: string, k: string, withP: bool)
    requires AllIn(frac, Digit)
    requires IsKey(k) && AllIn(k, Suffix(withP))
    ensures ParseWith(NatToString(n) + "." + frac + k, withP) == Ok(n * SuffixValue(k).value)
  {
    ParseDecimalOfNumber(n, frac);
    var num := NatToString(n) + "." + frac;
    DigitsAreNumberChars(NatToString(n));
    assert AllIn(num, Number);
    NumberThenKey(num, k, withP);
  }

  /** Inputs that are not a key and fail the regular expression are "bad format 1". */
  lemma ParseRejectsMalformed(s: string, withP: bool)
    requires !IsKey(s) && !RegexMatches(s, withP)
    ensures ParseWith(s, withP) == Err(BadFormat1(s))
  {
    ShapeIsRegex(s, withP);
  }

  /** Trailing white space passes the shape check but then no key ends the input: the result is 0
      and no error. */
  lemma ParseTrailingSpaceIsZero(num: string, k: string, sp: string, withP: bool)
    requires |num| > 0 && AllIn(num, Number)
    requires IsKey(k) && AllIn(k, Suffix(withP))
    requires |sp| > 0 && AllIn(sp, Space)
    ensures ParseWith(num + k + sp, withP) == Ok(0)
  {
    var s := num + k + sp;
    assert s[0] == num[0];
    NumberStartIsNoKey(s);
    assert s[..0] == [] && s[0..|num|] == num && s[|num|..|num| + |k|] == k && s[|num| + |k|..] == sp;
    MatchIsShape(s, withP, 0, |num|, |num| + |k|);
    assert s[|s| - 1] == sp[|sp| - 1];
    NoKeyEndsInSpace(s);
  }

  /** A key never ends in white space. */
  lemma NoKeyEndsInSpace(s: string)
    requires |s| > 0 && In(s[|s| - 1], Space)
    ensures forall k :: IsKey(k) ==> !IsSuffix(k, s)
  {
    forall k | IsKey(k)
      ensures !IsSuffix(k, s)
    {
      KeyCharFacts(k, |k| - 1);
      SuffixCharFacts(k[|k| - 1], true);
      if |k| <= |s| {
        assert s[|s| - |k|..][|k| - 1] == s[|s| - 1];
      }
    }
  }

  // The examples below take the input as a parameter equal to a literal, so that the verifier
  // follows the general lemmas instead of evaluating `Parse` on the literal.

  /** "10KiB" is ten KiB. */
  lemma ParseBinaryExample(s: string)
    requires s == "10KiB"
    ensures Parse(s) == Ok(10 * KiB)
  {
    var d := NatToString(10);
    assert d == "10";
    assert s == d + "KiB";
    assert SuffixValue("KiB").value == KiB;
    ParseIntegerTimesUnit(10, "KiB", false);
  }

  /** "7k": lower-case single letters are binary units. */
  lemma ParseLowerCaseExample(s: string)
    requires s == "7k"
    ensures Parse(s) == Ok(7 * KiB)
  {
    var d := NatToString(7);
    assert d == "7";
    assert s == d + "k";
    assert SuffixValue("k").value == KiB;
    ParseIntegerTimesUnit(7, "k", false);
  }

  /** "1.5KiB" is one KiB: the fraction is dropped before scaling. */
  lemma ParseFractionExample(s: string)
    requires s == "1.5KiB"
    ensures Parse(s) == Ok(KiB)
  {
    var d := NatToString(1);
    assert d == "1";
    assert s == d + "." + "5" + "KiB";
    assert SuffixValue("KiB").value == KiB;
    ParseTruncatesFraction(1, "5", "KiB", false);
  }

  /** A bare key, even "Kbps", is looked up before the shape check. */
  lemma ParseKeyExample(s: string)
    requires s == "Kbps"
    ensures Parse(s) == Ok(Kb)
  {
    assert IsKey(s) && SuffixValue(s) == Some(Kb);
  }

  /** "10KB " passes the shape check, but no key ends it. */
  lemma ParseTrailingSpaceExample(s: string)
    requires s == "10KB "
    ensures Parse(s) == Ok(0)
  {
    assert s == "10" + "KB" + " ";
    ParseTrailingSpaceIsZero("10", "KB", " ", false);
  }

  /** Numbers that `strconv.ParseFloat` refuses are "bad format 2", carrying the stripped text. */
  lemma ParseTwoDotsExample(s: string)
    requires s == "1.2.3KB"
    ensures Parse(s) == Err(BadFormat2("1.2.3"))
  {
    var t := "1.2.3";
    assert t[..1] == "1";
    SpanIs(t, Digit, 1);
    assert t[1..][1..][1] == '.';
    assert s == t + "KB";
    NumberThenKey(t, "KB", false);
  }

  lemma ParseNoDigitExample(s: string)
    requires s == ".KB"
    ensures Parse(s) == Err(BadFormat2("."))
  {
    assert "."[..0] == [];
    SpanIs(".", Digit, 0);
    assert s == "." + "KB";
    NumberThenKey(".", "KB", false);
  }

  /** As written, the shape check has no `p`, so every "<n>Kbps" is "bad format 1", although
      "Kbps" is a key of the table. */
  lemma RateSuffixRejected(n: nat)
    ensures Parse(NatToString(n) + "Kbps") == Err(BadFormat1(NatToString(n) + "Kbps"))
  {
    DigitsAreNumberChars(NatToString(n));
    RateSuffixFailsShape(NatToString(n));
  }

  /** The greedy split of "<number>Kbps" stops the suffix part at `p` and leaves "ps" over. */
  lemma RateSuffixFailsShape(num: string)
    requires |num| > 0 && AllIn(num, Number)
    ensures !IsKey(num + "Kbps") && !Shape(num + "Kbps", false)
  {
    var s := num + "Kbps";
    var m := |num|;
    assert s[0] == num[0] && s[..0] == [] && s[0..] == s;
    NumberStartIsNoKey(s);
    SpanIs(s, Space, 0);
    assert s[0..m] == num && s[m] == 'K';
    SpanOfPart(s, 0, m, Number);
    assert s[m..m + 2] == "Kb" && s[m + 2] == 'p';
    SpanOfPart(s, m, m + 2, Written);
    assert s[m + 2..][0] == 'p';
  }

  /** With `p` in the suffix class, "<n><key>" parses to `n` units for every key of the table,
      as units_test.go expects. */
  lemma IntendedParsesEveryKey(n: nat, k: string)
    requires IsKey(k)
    ensures ParseIntended(NatToString(n) + k) == Ok(n * SuffixValue(k).value)
  {
    KeyFacts();
    ParseIntegerTimesUnit(n, k, true);
  }

  // ---------------------------------------------------------------------------
  // MaxSize and MinSize

  /** `MaxSize(ss...)`: 0 for no argument, otherwise the largest argument. */
  method MaxSize(ss: seq<Size>) returns (max: Size)
    ensures |ss| == 0 ==> max == 0
    ensures |ss| > 0 ==> max in ss && forall i :: 0 <= i < |ss| ==> ss[i] <= max
  {
    if |ss| == 0 {
      return 0;
    }
    max := ss[0];
    for i := 0 to |ss|
      invariant max in ss
      invariant forall j :: 0 <= j < i ==> ss[j] <= max
    {
      if ss[i] > max {
        max := ss[i];
      }
    }
  }

  /** `MinSize(ss...)`: 0 for no argument, otherwise the smallest argument. */
  method MinSize(ss: seq<Size>) returns (min: Size)
    ensures |ss| == 0 ==> min == 0
    ensures |ss| > 0 ==> min in ss && forall i :: 0 <= i < |ss| ==> min <= ss[i]
  {
    if |ss| == 0 {
      return 0;
    }
    min := ss[0];
    for i := 0 to |ss|
      invariant min in ss
      invariant forall j :: 0 <= j < i ==> min <= ss[j]
    {
      if ss[i] < min {
        min := ss[i];
      }
    }
  }
}
