/**
 * The parts of Rust's `str` API the chart parser relies on, stated over
 * `string` (a sequence of Unicode scalar values): `trim`, `starts_with`,
 * `find`, `split`, `lines`, `replace("\n", "")`, `trim_end_matches` and
 * `str::parse::<f64>` restricted to finite decimal numbers.
 */
module Text {
  import opened Wrappers

  /** Unicode White_Space, the characters `str::trim` removes. */
  predicate IsWhitespace(c: char) {
    ('\t' <= c <= '\r') || c == ' ' || c == '\U{85}' || c == '\U{A0}' || c == '\U{1680}'
    || ('\U{2000}' <= c <= '\U{200A}') || c == '\U{2028}' || c == '\U{2029}'
    || c == '\U{202F}' || c == '\U{205F}' || c == '\U{3000}'
  }

  /** `trim_start`: the longest suffix of `s` that does not start with white space. */
  function TrimStart(s: string): (r: string)
    ensures |r| <= |s| && r == s[|s| - |r|..]
    ensures forall i :: 0 <= i < |s| - |r| ==> IsWhitespace(s[i])
    ensures r == [] || !IsWhitespace(r[0])
  {
    if s != [] && IsWhitespace(s[0]) then TrimStart(s[1..]) else s
  }

  /** `trim_end`: the longest prefix of `s` that does not end with white space. */
  function TrimEnd(s: string): (r: string)
    ensures |r| <= |s| && r == s[..|r|]
    ensures forall i :: |r| <= i < |s| ==> IsWhitespace(s[i])
    ensures r == [] || !IsWhitespace(r[|r| - 1])
  {
    if s != [] && IsWhitespace(s[|s| - 1]) then TrimEnd(s[..|s| - 1]) else s
  }

  /** `trim`: white space removed from both ends. */
  function Trim(s: string): (r: string)
    ensures |r| <= |s|
    ensures r == [] || (!IsWhitespace(r[0]) && !IsWhitespace(r[|r| - 1]))
  {
    TrimEnd(TrimStart(s))
  }

  /** The trimmed text is the slice of `s` that follows its leading white space. */
  lemma {:induction false} TrimIsInfix(s: string)
    ensures var a := |s| - |TrimStart(s)|; a + |Trim(s)| <= |s| && Trim(s) == s[a..a + |Trim(s)|]
  {
    var t := TrimStart(s);
    PrefixOfSuffix(s, |s| - |t|, t, TrimEnd(t));
  }

  /** A prefix of a suffix of `s` is a slice of `s`. */
  lemma PrefixOfSuffix(s: string, a: nat, t: string, r: string)
    requires a <= |s| && t == s[a..] && |r| <= |t| && r == t[..|r|]
    ensures a + |r| <= |s| && r == s[a..a + |r|]
  {
  }

  /** Only white space lies before the trimmed text. */
  lemma TrimLeading(s: string)
    ensures forall i :: 0 <= i < |s| - |TrimStart(s)| ==> IsWhitespace(s[i])
  {
  }

  /** Only white space lies after the trimmed text. */
  lemma TrimTrailing(s: string)
    ensures forall i :: |s| - |TrimStart(s)| + |Trim(s)| <= i < |s| ==> IsWhitespace(s[i])
  {
    var t := TrimStart(s);
    var a := |s| - |t|;
    forall i | a + |Trim(s)| <= i < |s| ensures IsWhitespace(s[i]) {
      assert s[i] == t[i - a];
    }
  }

  /** Trimming only removes characters. */
  lemma TrimWithin(s: string)
    ensures forall c :: c in Trim(s) ==> c in s
  {
    var t := TrimStart(s);
    assert forall c :: c in TrimEnd(t) ==> c in t;
  }

  predicate StartsWith(s: string, prefix: string) {
    |prefix| <= |s| && s[..|prefix|] == prefix
  }

  /** `pat` occurs in `s` starting at index `i`. */
  predicate OccursAt(s: string, pat: string, i: nat) {
    i + |pat| <= |s| && s[i..i + |pat|] == pat
  }

  /** `i` is the first index at which `pat` occurs in `s`. */
  predicate FirstAt(s: string, pat: string, i: nat) {
    OccursAt(s, pat, i) && forall k :: 0 <= k < i ==> !OccursAt(s, pat, k)
  }

  lemma OccursAtChar(s: string, c: char, i: nat)
    ensures OccursAt(s, [c], i) <==> i < |s| && s[i] == c
  {
    if i < |s| && s[i] == c {
      assert s[i..i + 1] == [c];
    }
  }

  function FindFrom(s: string, pat: string, i: nat): (r: Option<nat>)
    requires i <= |s|
    ensures r.Some? ==> i <= r.value && OccursAt(s, pat, r.value)
    ensures r.Some? ==> forall k :: i <= k < r.value ==> !OccursAt(s, pat, k)
    ensures r.None? ==> forall k :: i <= k ==> !OccursAt(s, pat, k)
    decreases |s| - i
  {
    if OccursAt(s, pat, i) then Some(i)
    else if i == |s| then None
    else FindFrom(s, pat, i + 1)
  }

  /** `str::find`: the index of the first occurrence of `pat`, if any. */
  function Find(s: string, pat: string): (r: Option<nat>)
    ensures r.Some? ==> FirstAt(s, pat, r.value)
    ensures r.None? ==> forall k :: !OccursAt(s, pat, k)
  {
    FindFrom(s, pat, 0)
  }

  /** A character search is the first index holding that character. */
  lemma FindChar(s: string, c: char)
    ensures Find(s, [c]).Some? ==> var i := Find(s, [c]).value;
      i < |s| && s[i] == c && c !in s[..i]
    ensures Find(s, [c]).None? ==> c !in s
  {
    match Find(s, [c])
    case Some(i) =>
      OccursAtChar(s, c, i);
      forall k | 0 <= k < i ensures s[k] != c {
        OccursAtChar(s, c, k);
      }
    case None =>
      forall k | 0 <= k < |s| ensures s[k] != c {
        OccursAtChar(s, c, k);
      }
  }

  /** The first `c` in `s` sits at `i`. */
  lemma FindFirst(s: string, c: char, i: nat)
    requires i < |s| && s[i] == c && c !in s[..i]
    ensures Find(s, [c]) == Some(i)
  {
    FindChar(s, c);
    assert s[..i + 1][i] == c;
  }

  /** The inverse of `Split`: the parts put back together with `sep` between them. */
  function Join(parts: seq<string>, sep: char): string
    requires |parts| >= 1
  {
    if |parts| == 1 then parts[0] else parts[0] + [sep] + Join(parts[1..], sep)
  }

  /** `str::split` on a character: the separator-free pieces that `Join` reassembles. */
  function Split(s: string, sep: char): (parts: seq<string>)
    ensures |parts| >= 1
    ensures forall p :: p in parts ==> sep !in p
    ensures Join(parts, sep) == s
    decreases |s|
  {
    FindChar(s, sep);
    match Find(s, [sep])
    case None => [s]
    case Some(i) =>
      var rest := Split(s[i + 1..], sep);
      assert s == s[..i] + [sep] + s[i + 1..];
      [s[..i]] + rest
  }

  /** Splitting separator-free parts joined with `sep` gives back those parts. */
  lemma {:induction false} SplitJoin(parts: seq<string>, sep: char)
    requires |parts| >= 1
    requires forall p :: p in parts ==> sep !in p
    ensures Split(Join(parts, sep), sep) == parts
    decreases |parts|
  {
    var s := Join(parts, sep);
    if |parts| == 1 {
      NoOccurrence(s, sep);
    } else {
      var head := parts[0];
      var rest := Join(parts[1..], sep);
      assert s == head + [sep] + rest;
      assert s[|head|] == sep;
      assert s[..|head|] == head;
      FindFirst(s, sep, |head|);
      var i := |head|;
      assert s[i + 1..] == rest;
      assert forall p :: p in parts[1..] ==> p in parts;
      SplitJoin(parts[1..], sep);
      assert parts == [head] + parts[1..];
    }
  }

  /** Joining one more part appends the separator and that part. */
  lemma {:induction false} JoinSnoc(parts: seq<string>, x: string, sep: char)
    requires |parts| >= 1
    ensures Join(parts + [x], sep) == Join(parts, sep) + [sep] + x
    decreases |parts|
  {
    if |parts| == 1 {
      assert (parts + [x])[1..] == [x];
    } else {
      assert (parts + [x])[1..] == parts[1..] + [x];
      JoinSnoc(parts[1..], x, sep);
    }
  }

  /** Every character of every piece of a split occurs in the text. */
  lemma {:induction false} SplitWithin(s: string, sep: char)
    ensures forall p :: p in Split(s, sep) ==> forall x :: x in p ==> x in s
    decreases |s|
  {
    FindChar(s, sep);
    match Find(s, [sep])
    case None =>
    case Some(i) =>
      SplitWithin(s[i + 1..], sep);
      assert forall x :: x in s[i + 1..] ==> x in s;
      assert forall x :: x in s[..i] ==> x in s;
  }

  /** `replace(c, "")`: every occurrence of `c` removed. */
  function Remove(s: string, c: char): (r: string)
    ensures c !in s ==> r == s
  {
    if s == [] then []
    else (if s[0] == c then [] else [s[0]]) + Remove(s[1..], c)
  }

  /**
   * `Remove` leaves no `c`, never lengthens the text and keeps only
   * characters of its input.
   */
  lemma {:induction false} RemoveWithin(s: string, c: char)
    ensures c !in Remove(s, c)
    ensures |Remove(s, c)| <= |s|
    ensures forall x :: x in Remove(s, c) ==> x in s
  {
    if s != [] {
      RemoveWithin(s[1..], c);
      assert forall x :: x in s[1..] ==> x in s;
    }
  }

  /** Removing from a text with a first character decides that character, then removes from the rest. */
  lemma RemoveCons(x: char, s: string, c: char)
    ensures Remove([x] + s, c) == (if x == c then [] else [x]) + Remove(s, c)
  {
    assert ([x] + s)[0] == x && ([x] + s)[1..] == s;
  }

  /** Removing from a concatenation removes from each part and keeps their order. */
  lemma {:induction false} RemoveConcat(a: string, b: string, c: char)
    ensures Remove(a + b, c) == Remove(a, c) + Remove(b, c)
  {
    if a == [] {
      assert a + b == b;
    } else {
      var h := if a[0] == c then [] else [a[0]];
      var ab := a + b;
      assert ab[0] == a[0] && ab[1..] == a[1..] + b;
      assert Remove(ab, c) == h + Remove(a[1..] + b, c);
      RemoveConcat(a[1..], b, c);
      assert Remove(a, c) == h + Remove(a[1..], c);
    }
  }

  /** On one character, `Remove` drops it exactly when it is `c`. */
  lemma RemoveOne(x: char, c: char)
    ensures Remove([x], c) == if x == c then [] else [x]
  {
  }

  /** The `\r` of a `\r\n` line ending. */
  function StripCarriageReturn(line: string): (r: string)
    ensures forall x :: x in r ==> x in line
    ensures '\r' !in line ==> r == line
  {
    if line != [] && line[|line| - 1] == '\r' then line[..|line| - 1] else line
  }

  /**
   * `str::lines`: split at `\n`, each `\r\n` ending losing its `\r`; a final
   * line ending does not start an extra empty line, and "" has no lines.
   */
  function Lines(s: string): (ls: seq<string>)
    ensures ls == [] <==> s == []
    ensures forall i :: 0 <= i < |ls| ==> '\n' !in ls[i]
  {
    if s == [] then []
    else
      var parts := Split(s, '\n');
      assert parts[0] != [] || |parts| > 1;
      var n := if parts[|parts| - 1] == [] then |parts| - 1 else |parts|;
      seq(n, i requires 0 <= i < n => if i < |parts| - 1 then StripCarriageReturn(parts[i]) else parts[i])
  }

  /**
   * Without carriage returns, the lines joined by `\n` give back the text, up
   * to the line ending that closes the last line.
   */
  lemma LinesJoin(s: string)
    requires s != [] && '\r' !in s
    ensures Join(Lines(s), '\n') + (if s[|s| - 1] == '\n' then "\n" else "") == s
  {
    var parts := Split(s, '\n');
    var last := |parts| - 1;
    SplitWithin(s, '\n');
    forall i | 0 <= i < |parts| ensures StripCarriageReturn(parts[i]) == parts[i] {
      assert parts[i] in parts;
    }
    if last >= 1 {
      assert parts == parts[..last] + [parts[last]];
      JoinSnoc(parts[..last], parts[last], '\n');
    }
    if parts[last] == [] {
      assert Lines(s) == parts[..last];
    } else {
      assert Lines(s) == parts;
      assert s[|s| - 1] == parts[last][|parts[last]| - 1];
    }
  }

  /** `trim_end_matches(c)`: every trailing `c` removed. */
  function TrimEndMatches(s: string, c: char): (r: string)
    ensures |r| <= |s| && r == s[..|r|]
    ensures forall i :: |r| <= i < |s| ==> s[i] == c
    ensures r == [] || r[|r| - 1] != c
  {
    if s != [] && s[|s| - 1] == c then TrimEndMatches(s[..|s| - 1], c) else s
  }

  // ---------------------------------------------------------------------
  // `str::parse::<f64>` on finite decimal text:
  //   Sign? ( Digit+ | Digit+ '.' Digit* | Digit* '.' Digit+ ) ( ('e'|'E') Sign? Digit+ )?

  predicate IsDigit(c: char) { '0' <= c <= '9' }

  predicate AllDigits(s: string) { forall i :: 0 <= i < |s| ==> IsDigit(s[i]) }

  function DigitsValue(s: string): nat
    requires AllDigits(s)
  {
    if s == [] then 0 else DigitsValue(s[..|s| - 1]) * 10 + (s[|s| - 1] as int - '0' as int)
  }

  function Pow10(e: nat): (r: nat)
    ensures r >= 1
  {
    if e == 0 then 1 else 10 * Pow10(e - 1)
  }

  /** The mantissa: digits with at most one decimal point and at least one digit. */
  function ParseMantissa(s: string): Option<real> {
    match Find(s, ".")
    case None =>
      if s != [] && AllDigits(s) then Some(DigitsValue(s) as real) else None
    case Some(i) =>
      var whole, fraction := s[..i], s[i + 1..];
      if AllDigits(whole) && AllDigits(fraction) && (whole != [] || fraction != []) then
        Some(DigitsValue(whole) as real + DigitsValue(fraction) as real / Pow10(|fraction|) as real)
      else None
  }

  function ParseExponent(s: string): Option<int> {
    if s != [] && (s[0] == '+' || s[0] == '-') then
      var digits := s[1..];
      if digits != [] && AllDigits(digits) then
        Some(if s[0] == '-' then -(DigitsValue(digits) as int) else DigitsValue(digits) as int)
      else None
    else if s != [] && AllDigits(s) then Some(DigitsValue(s))
    else None
  }

  function Scale(v: real, e: int): real {
    if e >= 0 then v * Pow10(e) as real else v / Pow10(-e) as real
  }

  /** Where the exponent starts: the first `e`, or else the first `E`. */
  function ExponentMark(s: string): (r: Option<nat>)
    ensures r.Some? ==> r.value < |s|
  {
    if Find(s, "e").Some? then Find(s, "e") else Find(s, "E")
  }

  /** A mantissa scaled by a power of ten. */
  function Scaled(mantissa: string, exponent: string): Option<real> {
    match (ParseMantissa(mantissa), ParseExponent(exponent))
    case (Some(v), Some(e)) => Some(Scale(v, e))
    case _ => None
  }

  function ParseUnsigned(s: string): Option<real> {
    match ExponentMark(s)
    case None => ParseMantissa(s)
    case Some(i) => Scaled(s[..i], s[i + 1..])
  }

  /** `str::parse::<f64>().ok()` for finite decimal text (exact, not rounded). */
  function ParseReal(s: string): (r: Option<real>)
    ensures s == [] ==> r.None?
  {
    if s != [] && (s[0] == '+' || s[0] == '-') then
      match ParseUnsigned(s[1..])
      case Some(v) => Some(if s[0] == '-' then -v else v)
      case None => None
    else ParseUnsigned(s)
  }

  /** Text that parses holds only number characters, so text with white space does not parse. */
  lemma ParseRealChars(s: string)
    ensures ParseReal(s).Some? ==> forall i :: 0 <= i < |s| ==> NumberChar(s[i])
  {
    UnsignedChars(s);
    if s != [] && (s[0] == '+' || s[0] == '-') {
      UnsignedChars(s[1..]);
      assert s == [s[0]] + s[1..];
    }
  }

  /** The characters `ParseReal` can accept: digits, signs, the point and the exponent mark. */
  predicate NumberChar(c: char) {
    IsDigit(c) || c == '+' || c == '-' || c == '.' || c == 'e' || c == 'E'
  }

  lemma {:induction false} MantissaChars(s: string)
    ensures ParseMantissa(s).Some? ==> forall i :: 0 <= i < |s| ==> IsDigit(s[i]) || s[i] == '.'
  {
    FindChar(s, '.');
    match Find(s, ".")
    case None =>
    case Some(i) =>
      assert s == s[..i] + "." + s[i + 1..];
  }

  lemma ExponentChars(t: string)
    ensures ParseExponent(t).Some? ==> forall k :: 0 <= k < |t| ==> NumberChar(t[k])
  {
    if t != [] && (t[0] == '+' || t[0] == '-') {
      assert forall k :: 1 <= k < |t| ==> t[k] == t[1..][k - 1];
    }
  }

  lemma {:induction false} UnsignedChars(s: string)
    ensures ParseUnsigned(s).Some? ==> forall i :: 0 <= i < |s| ==> NumberChar(s[i])
  {
    match ExponentMark(s)
    case None => MantissaChars(s);
    case Some(i) =>
      if ParseUnsigned(s).Some? {
        FindChar(s, 'e');
        FindChar(s, 'E');
        assert s[i] == 'e' || s[i] == 'E';
        MantissaChars(s[..i]);
        ExponentChars(s[i + 1..]);
        forall k | 0 <= k < |s| ensures NumberChar(s[k]) {
          if k < i {
            assert s[k] == s[..i][k];
          } else if k > i {
            assert s[k] == s[i + 1..][k - i - 1];
          }
        }
      }
  }

  /** Decimal rendering of a natural number, the partner of `ParseReal`. */
  function ShowNat(n: nat): (s: string)
    ensures s != [] && AllDigits(s)
  {
    if n < 10 then ['0' + n as char] else ShowNat(n / 10) + ['0' + (n % 10) as char]
  }

  lemma {:induction false} DigitsOfShowNat(n: nat)
    ensures DigitsValue(ShowNat(n)) == n
  {
    if n >= 10 {
      DigitsOfShowNat(n / 10);
      var s := ShowNat(n);
      assert s[..|s| - 1] == ShowNat(n / 10);
    }
  }

  lemma NoOccurrence(s: string, c: char)
    requires c !in s
    ensures Find(s, [c]).None?
  {
    FindChar(s, c);
  }

  /** Parsing the decimal rendering of `n` gives back `n`. */
  lemma ParseShowNat(n: nat)
    ensures ParseReal(ShowNat(n)) == Some(n as real)
  {
    var s := ShowNat(n);
    DigitsOfShowNat(n);
    assert forall i :: 0 <= i < |s| ==> IsDigit(s[i]);
    NoOccurrence(s, '.');
    NoOccurrence(s, 'e');
    NoOccurrence(s, 'E');
  }

  lemma NoExponentMark(s: string)
    requires forall k :: 0 <= k < |s| ==> IsDigit(s[k]) || s[k] == '.'
    ensures Find(s, "e").None? && Find(s, "E").None?
  {
    NoOccurrence(s, 'e');
    NoOccurrence(s, 'E');
  }

  lemma {:induction false} MantissaAt(s: string, i: nat)
    requires Find(s, ".") == Some(i) && i < |s|
    requires AllDigits(s[..i]) && AllDigits(s[i + 1..]) && (i > 0 || i + 1 < |s|)
    ensures ParseMantissa(s) == Some(DigitsValue(s[..i]) as real + DigitsValue(s[i + 1..]) as real / Pow10(|s[i + 1..]|) as real)
  {
    var whole, fraction := s[..i], s[i + 1..];
    assert whole != [] || fraction != [];
  }

  lemma PointChars(s: string, i: nat)
    requires i < |s| && s[i] == '.' && AllDigits(s[..i]) && AllDigits(s[i + 1..])
    ensures forall k :: 0 <= k < |s| ==> IsDigit(s[k]) || s[k] == '.'
  {
    forall k | 0 <= k < |s| ensures IsDigit(s[k]) || s[k] == '.' {
      if k < i { assert s[k] == s[..i][k]; }
      else if k > i { assert s[k] == s[i + 1..][k - i - 1]; }
    }
  }

  /**
   * Text with a point at `i`, digits before it and digits after it, parses to
   * the whole part plus the fraction over its power of ten.
   */
  lemma {:induction false} ParseDecimal(s: string, i: nat)
    requires i < |s| && s[i] == '.' && (i > 0 || i + 1 < |s|)
    requires AllDigits(s[..i]) && AllDigits(s[i + 1..])
    ensures ParseReal(s) == Some(DigitsValue(s[..i]) as real + DigitsValue(s[i + 1..]) as real / Pow10(|s[i + 1..]|) as real)
  {
    assert '.' !in s[..i];
    FindFirst(s, '.', i);
    MantissaAt(s, i);
    PointChars(s, i);
    ParsePlain(s);
  }

  /** Text of digits and points, with no sign and no exponent mark, parses as a mantissa. */
  lemma ParsePlain(s: string)
    requires forall k :: 0 <= k < |s| ==> IsDigit(s[k]) || s[k] == '.'
    ensures ParseReal(s) == ParseMantissa(s)
  {
    NoExponentMark(s);
    assert ParseUnsigned(s) == ParseMantissa(s);
    assert s == [] || (s[0] != '+' && s[0] != '-');
  }

  /** Text without a leading sign parses as unsigned text. */
  lemma ParseUnsignedText(s: string)
    requires s == [] || (s[0] != '+' && s[0] != '-')
    ensures ParseReal(s) == ParseUnsigned(s)
  {
  }

  lemma {:induction false} UnsignedAt(s: string, i: nat, v: real, e: nat)
    requires ExponentMark(s) == Some(i)
    requires ParseMantissa(s[..i]) == Some(v) && ParseExponent(s[i + 1..]) == Some(e)
    ensures ParseUnsigned(s) == Some(v * Pow10(e) as real)
  {
    assert ParseUnsigned(s) == Scaled(s[..i], s[i + 1..]);
    assert Scaled(s[..i], s[i + 1..]) == Some(Scale(v, e));
    assert Scale(v, e) == v * Pow10(e) as real;
  }

  lemma {:induction false} ExponentAt(s: string, i: nat, v: real)
    requires i < |s| && s[i] == 'e' && 'e' !in s[..i] && s[0] != '+' && s[0] != '-'
    requires ParseMantissa(s[..i]) == Some(v) && i + 1 < |s| && AllDigits(s[i + 1..])
    ensures ParseReal(s) == Some(v * Pow10(DigitsValue(s[i + 1..])) as real)
  {
    FindFirst(s, 'e', i);
    assert ExponentMark(s) == Some(i);
    var e := DigitsValue(s[i + 1..]);
    assert ParseExponent(s[i + 1..]) == Some(e) by {
      var t := s[i + 1..];
      assert t != [] && IsDigit(t[0]);
    }
    UnsignedAt(s, i, v, e);
    ParseUnsignedText(s);
    assert ParseReal(s) == ParseUnsigned(s) == Some(v * Pow10(e) as real);
  }

  /**
   * A mantissa of digits and a point, then `e` at `i` and exponent digits,
   * parses to the mantissa's value times that power of ten.
   */
  lemma {:induction false} ParseExponentDigits(s: string, i: nat, v: real)
    requires i < |s| && s[i] == 'e'
    requires forall k :: 0 <= k < i ==> IsDigit(s[k]) || s[k] == '.'
    requires ParseReal(s[..i]) == Some(v)
    requires i + 1 < |s| && AllDigits(s[i + 1..])
    ensures ParseReal(s) == Some(v * Pow10(DigitsValue(s[i + 1..])) as real)
  {
    var mantissa := s[..i];
    assert forall k :: 0 <= k < |mantissa| ==> IsDigit(mantissa[k]) || mantissa[k] == '.';
    ParsePlain(mantissa);
    NoOccurrence(mantissa, 'e');
    assert s[0] == mantissa[0];
    ExponentAt(s, i, v);
  }

  /** Text joined around a mark splits back into its two sides. */
  lemma AroundMark(x: string, c: char, y: string)
    ensures (x + [c] + y)[..|x|] == x && (x + [c] + y)[|x| + 1..] == y
  {
  }

  /** Digits, a point and digits parse to the whole part plus the fraction over its power of ten. */
  lemma {:induction false} ParseDigitsPointDigits(s: string, x: string, y: string)
    requires |x| < |s| && s[..|x|] == x && s[|x|] == '.' && s[|x| + 1..] == y
    requires x != [] && AllDigits(x) && AllDigits(y)
    ensures ParseReal(s) == Some(DigitsValue(x) as real + DigitsValue(y) as real / Pow10(|y|) as real)
  {
    ParseDecimal(s, |x|);
  }

  /** The decimal rendering `a.b` of two naturals parses to `a` plus `b` over the power of ten of `b`'s length. */
  lemma {:induction false} ParseShowDecimal(s: string, a: nat, b: nat)
    requires s == ShowNat(a) + "." + ShowNat(b)
    ensures ParseReal(s) == Some(a as real + b as real / Pow10(|ShowNat(b)|) as real)
  {
    var x, y := ShowNat(a), ShowNat(b);
    AroundMark(x, '.', y);
    assert s[|x|] == '.';
    ParseDigitsPointDigits(s, x, y);
    DigitsOfShowNat(a);
    DigitsOfShowNat(b);
  }

  /** A leading `-` negates the value that the rest of the text parses to. */
  lemma ParseNegative(s: string)
    requires s == [] || (s[0] != '+' && s[0] != '-')
    ensures ParseReal("-" + s) == match ParseReal(s) case Some(v) => Some(-v) case None => None
  {
    assert ("-" + s)[1..] == s;
  }
}
