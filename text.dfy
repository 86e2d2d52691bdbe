/** Option, shared by the decoding modules. */
module Wrappers {

  datatype Option<T> = None | Some(value: T)
}

/** The string and number conversions the monitor takes from Python's
    built-ins: `bytes.fromhex`, `int(s, 16)`, `str(n)`, `f"{n:02X}"`,
    `str.strip`, `str.split` and `str.startswith`. */
module Text {
  import opened Wrappers

  /** A Python `bytes` element. */
  type byte = x: int | 0 <= x < 256

  // ---------------------------------------------------------------------
  // Hexadecimal
  // ---------------------------------------------------------------------

  predicate IsHexDigit(c: char)
  {
    ('0' <= c <= '9') || ('a' <= c <= 'f') || ('A' <= c <= 'F')
  }

  function HexDigitValue(c: char): (v: nat)
    requires IsHexDigit(c)
    ensures v < 16
  {
    if '0' <= c <= '9' then c as int - '0' as int
    else if 'a' <= c <= 'f' then c as int - 'a' as int + 10
    else c as int - 'A' as int + 10
  }

  /** `bytes.fromhex(s)` on a string without whitespace: None where Python
      raises ValueError (an odd length or a non-hex character). */
  function ParseHex(s: string): (r: Option<seq<byte>>)
    ensures r.Some? ==> |r.value| * 2 == |s|
    decreases |s|
  {
    if |s| == 0 then Some([])
    else if |s| == 1 || !IsHexDigit(s[0]) || !IsHexDigit(s[1]) then None
    else
      match ParseHex(s[2..])
      case None => None
      case Some(rest) => Some([16 * HexDigitValue(s[0]) + HexDigitValue(s[1]) as byte] + rest)
  }

  /** What `bytes.fromhex` accepts, and the value of each byte it returns:
      the pair of digits at its position, high nibble first. */
  lemma {:induction false} ParseHexMeaning(s: string)
    ensures ParseHex(s).Some? <==> |s| % 2 == 0 && forall i :: 0 <= i < |s| ==> IsHexDigit(s[i])
    ensures ParseHex(s).Some? ==> forall k :: 0 <= k < |ParseHex(s).value| ==>
      ParseHex(s).value[k] == 16 * HexDigitValue(s[2 * k]) + HexDigitValue(s[2 * k + 1])
    decreases |s|
  {
    if |s| >= 2 {
      ParseHexMeaning(s[2..]);
      assert forall i :: 2 <= i < |s| ==> s[i] == s[2..][i - 2];
      if ParseHex(s).Some? {
        var v := ParseHex(s).value;
        var rest := ParseHex(s[2..]).value;
        assert v == [v[0]] + rest;
        forall k | 1 <= k < |v|
          ensures v[k] == 16 * HexDigitValue(s[2 * k]) + HexDigitValue(s[2 * k + 1])
        {
          assert v[k] == rest[k - 1];
          assert s[2 * k] == s[2..][2 * (k - 1)] && s[2 * k + 1] == s[2..][2 * (k - 1) + 1];
        }
      }
    }
  }

  /** The upper-case digit for a value below 16. */
  function UpperHexDigit(v: nat): (c: char)
    requires v < 16
    ensures IsHexDigit(c) && HexDigitValue(c) == v
  {
    if v < 10 then ('0' as int + v) as char else ('A' as int + v - 10) as char
  }

  /** `int(s, 16)` on a string of two characters: two hex digits, or a sign
      and one hex digit. None where Python raises ValueError. */
  function ParseInt16(s: string): (r: Option<int>)
    requires |s| == 2
    ensures r.Some? ==> -15 <= r.value <= 255
  {
    if IsHexDigit(s[0]) && IsHexDigit(s[1]) then Some(16 * HexDigitValue(s[0]) + HexDigitValue(s[1]))
    else if s[0] == '+' && IsHexDigit(s[1]) then Some(HexDigitValue(s[1]))
    else if s[0] == '-' && IsHexDigit(s[1]) then Some(-(HexDigitValue(s[1]) as int))
    else None
  }

  /** `int(s, 16)` reads two hex digits as the byte `bytes.fromhex` makes of
      them, and accepts a sign as well, which `bytes.fromhex` refuses. */
  lemma ParseInt16AndParseHex(s: string)
    requires |s| == 2
    ensures ParseHex(s).Some? ==> ParseInt16(s) == Some(ParseHex(s).value[0])
    ensures ParseInt16(s).Some? && ParseHex(s).None? <==> (s[0] == '+' || s[0] == '-') && IsHexDigit(s[1])
  {
    ParseHexMeaning(s);
    if IsHexDigit(s[0]) && IsHexDigit(s[1]) {
      forall i | 0 <= i < |s|
        ensures IsHexDigit(s[i])
      {
        assert i == 0 || i == 1;
      }
      assert |ParseHex(s).value| == 1;
    }
  }

  /** `f"{n:02X}"` for the values `int(s, 16)` gives on two characters: two
      upper-case hex digits, or the minus sign and one digit. */
  function Hex2(n: int): (s: string)
    requires -15 <= n <= 255
    ensures |s| == 2
  {
    if n < 0 then ['-', UpperHexDigit(-n)] else [UpperHexDigit(n / 16), UpperHexDigit(n % 16)]
  }

  /** The two characters written by Hex2 read back as the number they came from. */
  lemma Hex2RoundTrip(n: int)
    requires -15 <= n <= 255
    ensures ParseInt16(Hex2(n)) == Some(n)
  {
  }

  // ---------------------------------------------------------------------
  // Decimal
  // ---------------------------------------------------------------------

  predicate IsDecimalDigit(c: char)
  {
    '0' <= c <= '9'
  }

  function DecimalDigit(v: nat): (c: char)
    requires v < 10
    ensures IsDecimalDigit(c) && c as int - '0' as int == v
  {
    ('0' as int + v) as char
  }

  /** `str(n)` for a natural number. */
  function Decimal(n: nat): (s: string)
    ensures |s| > 0
    ensures forall i :: 0 <= i < |s| ==> IsDecimalDigit(s[i])
  {
    if n < 10 then [DecimalDigit(n)] else Decimal(n / 10) + [DecimalDigit(n % 10)]
  }

  function DecimalDigitValue(c: char): (v: nat)
    requires IsDecimalDigit(c)
    ensures v < 10
  {
    c as int - '0' as int
  }

  /** The value of a string of decimal digits. */
  function DecimalValue(s: string): nat
    requires forall i :: 0 <= i < |s| ==> IsDecimalDigit(s[i])
  {
    if s == [] then 0 else 10 * DecimalValue(s[..|s| - 1]) + DecimalDigitValue(s[|s| - 1])
  }

  /** `str(n)` loses nothing: its digits read back as `n`. */
  lemma {:induction false} DecimalRoundTrip(n: nat)
    ensures DecimalValue(Decimal(n)) == n
  {
    if n >= 10 {
      var s := Decimal(n);
      assert s[..|s| - 1] == Decimal(n / 10);
      DecimalRoundTrip(n / 10);
    }
  }

  /** `str(n)` for any integer. */
  function SignedDecimal(n: int): (s: string)
    ensures |s| > 0
  {
    if n < 0 then "-" + Decimal(-n) else Decimal(n)
  }

  /** Hence distinct numbers print differently. */
  lemma DecimalInjective(m: nat, n: nat)
    requires Decimal(m) == Decimal(n)
    ensures m == n
  {
    DecimalRoundTrip(m);
    DecimalRoundTrip(n);
  }

  predicate IsDecimal(s: string)
  {
    s != [] && forall i :: 0 <= i < |s| ==> IsDecimalDigit(s[i])
  }

  /** `int(s)` on digits with an optional leading '-'. */
  function ReadSignedDecimal(s: string): Option<int>
  {
    if s != [] && s[0] == '-' then
      if IsDecimal(s[1..]) then Some(-(DecimalValue(s[1..]) as int)) else None
    else if IsDecimal(s) then Some(DecimalValue(s))
    else None
  }

  /** `int(str(n)) == n`. */
  lemma SignedDecimalRoundTrip(n: int)
    ensures ReadSignedDecimal(SignedDecimal(n)) == Some(n)
  {
    var s := SignedDecimal(n);
    if n < 0 {
      assert s[1..] == Decimal(-n);
      DecimalRoundTrip(-n);
    } else {
      DecimalRoundTrip(n);
    }
  }

  /** Hence distinct integers print differently. */
  lemma SignedDecimalInjective(m: int, n: int)
    requires SignedDecimal(m) == SignedDecimal(n)
    ensures m == n
  {
    SignedDecimalRoundTrip(m);
    SignedDecimalRoundTrip(n);
  }

  // ---------------------------------------------------------------------
  // Python's whitespace, str.strip(), str.split() and str.startswith()
  // ---------------------------------------------------------------------

  /** `str.isspace()` for one character: the characters `strip()` and
      `split()` without arguments treat as whitespace. */
  predicate IsSpace(c: char)
  {
    c == ' ' || ('\t' <= c <= '\r') || ('\U{1C}' <= c <= '\U{1F}')
    || c == '\U{85}' || c == '\U{A0}' || c == '\U{1680}'
    || ('\U{2000}' <= c <= '\U{200A}') || c == '\U{2028}' || c == '\U{2029}'
    || c == '\U{202F}' || c == '\U{205F}' || c == '\U{3000}'
  }

  function TrimStart(s: string): (r: string)
    ensures |r| <= |s| && r == s[|s| - |r|..]
    ensures r == [] || !IsSpace(r[0])
    ensures forall i :: 0 <= i < |s| - |r| ==> IsSpace(s[i])
  {
    if s != [] && IsSpace(s[0]) then TrimStart(s[1..]) else s
  }

  function TrimEnd(s: string): (r: string)
    ensures |r| <= |s| && r == s[..|r|]
    ensures r == [] || !IsSpace(r[|r| - 1])
    ensures forall i :: |r| <= i < |s| ==> IsSpace(s[i])
  {
    if s != [] && IsSpace(s[|s| - 1]) then TrimEnd(s[..|s| - 1]) else s
  }

  /** `s.strip()`. */
  function Strip(s: string): string
  {
    TrimEnd(TrimStart(s))
  }

  /** The leading run of non-whitespace characters. */
  function LeadingWord(s: string): (w: string)
    ensures |w| <= |s| && w == s[..|w|]
    ensures forall i :: 0 <= i < |w| ==> !IsSpace(w[i])
    ensures |w| == |s| || IsSpace(s[|w|])
  {
    if s == [] || IsSpace(s[0]) then [] else [s[0]] + LeadingWord(s[1..])
  }

  /** A word of `split()`: non-empty, without whitespace. */
  predicate IsWord(w: string)
  {
    w != [] && forall i :: 0 <= i < |w| ==> !IsSpace(w[i])
  }

  /** `s.split()`: the maximal runs of non-whitespace characters, in order. */
  function Split(s: string): (words: seq<string>)
    ensures forall k :: 0 <= k < |words| ==> IsWord(words[k])
    decreases |s|
  {
    var t := TrimStart(s);
    if t == [] then []
    else
      var w := LeadingWord(t);
      assert w != [] && IsWord(w);
      var rest := Split(t[|w|..]);
      PrependWord(w, rest);
      [w] + rest
  }

  lemma PrependWord(w: string, rest: seq<string>)
    requires IsWord(w) && forall k :: 0 <= k < |rest| ==> IsWord(rest[k])
    ensures forall k :: 0 <= k < |[w] + rest| ==> IsWord(([w] + rest)[k])
  {
    assert forall k :: 0 < k < |[w] + rest| ==> ([w] + rest)[k] == rest[k - 1];
  }

  /** All whitespace. */
  predicate AllSpace(g: string)
  {
    forall i :: 0 <= i < |g| ==> IsSpace(g[i])
  }

  /** The whitespace `s.split()` drops: the gap before each word, then the
      gap after the last one. */
  function Gaps(s: string): seq<string>
    decreases |s|
  {
    var t := TrimStart(s);
    if t == [] then [s]
    else
      LeadingWordNonEmpty(t);
      [s[..|s| - |t|]] + Gaps(t[|LeadingWord(t)|..])
  }

  lemma LeadingWordNonEmpty(t: string)
    requires t != [] && !IsSpace(t[0])
    ensures LeadingWord(t) != []
  {
  }

  /** `g0 + w0 + g1 + ... + w(n-1) + gn`. */
  function Interleave(gaps: seq<string>, words: seq<string>): string
    requires |gaps| == |words| + 1
    decreases |words|
  {
    if words == [] then gaps[0] else gaps[0] + words[0] + Interleave(gaps[1..], words[1..])
  }

  /** The whitespace before the first word of `s`, and what follows it. */
  lemma StripLead(s: string)
    ensures s == s[..|s| - |TrimStart(s)|] + TrimStart(s)
    ensures AllSpace(s[..|s| - |TrimStart(s)|])
  {
  }

  /** A string of whitespace only has no words and is one gap. */
  lemma SplitNone(s: string)
    requires TrimStart(s) == []
    ensures Split(s) == [] && Gaps(s) == [s]
  {
  }

  /** One step of `split()` on a string with a word in it: the first word,
      then the rest processed the same way. */
  lemma SplitUnfold(s: string)
    requires TrimStart(s) != []
    ensures var t := TrimStart(s); var w := LeadingWord(t); var u := t[|w|..];
      Split(s) == [w] + Split(u)
  {
  }

  /** The same step for the gaps: the leading gap, then the gaps of the rest. */
  lemma GapsUnfold(s: string)
    requires TrimStart(s) != []
    ensures var t := TrimStart(s); var w := LeadingWord(t); var u := t[|w|..];
      Gaps(s) == [s[..|s| - |t|]] + Gaps(u)
  {
    var t := TrimStart(s);
    var lead, rest := s[..|s| - |t|], Gaps(t[|LeadingWord(t)|..]);
    assert Gaps(s) == [lead] + rest;
  }

  /** The first word is followed by the rest of the string. */
  lemma WordThenRest(t: string)
    requires t != [] && !IsSpace(t[0])
    ensures var w := LeadingWord(t); w != [] && t == w + t[|w|..]
  {
  }

  /** After the first word, the next gap is not empty if another word follows. */
  lemma GapAfterWord(t: string)
    requires t != [] && !IsSpace(t[0])
    ensures var u := t[|LeadingWord(t)|..]; Split(u) != [] ==> Gaps(u)[0] != []
  {
    var u := t[|LeadingWord(t)|..];
    if Split(u) != [] {
      assert u != [] && IsSpace(u[0]);
      assert |TrimStart(u)| < |u|;
    }
  }

  /** The words of `s.split()` are exactly the maximal runs of
      non-whitespace in `s`, in order, with nothing lost: `s` is the words
      interleaved with all-whitespace gaps (SplitGaps), and the gaps between
      two words are not empty (only the first and the last may be). */
  lemma {:induction false} SplitRebuild(s: string)
    ensures |Gaps(s)| == |Split(s)| + 1 && Interleave(Gaps(s), Split(s)) == s
    decreases |s|
  {
    var t := TrimStart(s);
    if t == [] {
      SplitNone(s);
    } else {
      var w := LeadingWord(t);
      var u := t[|w|..];
      var lead := s[..|s| - |t|];
      SplitUnfold(s);
      GapsUnfold(s);
      StripLead(s);
      WordThenRest(t);
      SplitRebuild(u);
      var gaps, words := Gaps(u), Split(u);
      InterleaveStep(lead, t, w, u, s, gaps, words);
    }
  }

  /** Putting the leading gap and the first word in front of the rebuilt rest
      gives back the whole string. */
  lemma InterleaveStep(lead: string, t: string, w: string, u: string, s: string,
                       gaps: seq<string>, words: seq<string>)
    requires s == lead + t && t == w + u
    requires |gaps| == |words| + 1 && Interleave(gaps, words) == u
    ensures Interleave([lead] + gaps, [w] + words) == s
  {
    InterleaveCons(lead, gaps, w, words);
    assert lead + w + u == lead + (w + u);
  }

  lemma {:induction false} SplitGaps(s: string)
    ensures |Gaps(s)| == |Split(s)| + 1
    ensures forall k :: 0 <= k < |Gaps(s)| ==> AllSpace(Gaps(s)[k])
    ensures forall k :: 0 < k < |Split(s)| ==> Gaps(s)[k] != []
    decreases |s|
  {
    var t := TrimStart(s);
    StripLead(s);
    if t == [] {
      SplitNone(s);
    } else {
      var w := LeadingWord(t);
      var u := t[|w|..];
      SplitUnfold(s);
      GapsUnfold(s);
      GapAfterWord(t);
      SplitGaps(u);
      PrependGap(s[..|s| - |t|], Gaps(u), |Split(u)|);
    }
  }

  lemma PrependGap(g: string, gaps: seq<string>, n: nat)
    requires AllSpace(g) && |gaps| == n + 1
    requires forall k :: 0 <= k < |gaps| ==> AllSpace(gaps[k])
    requires forall k :: 0 < k < n ==> gaps[k] != []
    requires n > 0 ==> gaps[0] != []
    ensures forall k :: 0 <= k < |[g] + gaps| ==> AllSpace(([g] + gaps)[k])
    ensures forall k :: 0 < k < n + 1 ==> ([g] + gaps)[k] != []
  {
    assert forall k :: 0 < k < |[g] + gaps| ==> ([g] + gaps)[k] == gaps[k - 1];
  }

  lemma InterleaveCons(g: string, gaps: seq<string>, w: string, words: seq<string>)
    requires |gaps| == |words| + 1
    ensures Interleave([g] + gaps, [w] + words) == g + w + Interleave(gaps, words)
  {
    assert ([g] + gaps)[1..] == gaps && ([w] + words)[1..] == words;
  }

  /** `s.startswith(prefix)`. */
  predicate StartsWith(s: string, prefix: string)
  {
    |prefix| <= |s| && s[..|prefix|] == prefix
  }
}
