/** The string primitives that the two scripts and the generated page rely on:
    Python's `str.strip`, `str.startswith`, `str.replace` and `str(int)`, the
    character classes `\s`, `\d` and `.` of Python's `re`, and JavaScript's
    `String(n)` and `padStart`. Characters are restricted to ASCII classes. */
module Text {

  /** Python's whitespace (`str.isspace`, and `\s` in `re`), restricted to ASCII:
      tab, line feed, vertical tab, form feed, carriage return, the four
      information separators 0x1C..0x1F, and space. */
  predicate IsSpace(c: char) {
    c == ' ' || ('\t' <= c <= '\r') || ('\U{1C}' <= c <= '\U{1F}')
  }

  /** `\d` restricted to ASCII. */
  predicate IsDigit(c: char) {
    '0' <= c <= '9'
  }

  predicate AllSpace(s: string) {
    forall i :: 0 <= i < |s| ==> IsSpace(s[i])
  }

  predicate AllDigits(s: string) {
    forall i :: 0 <= i < |s| ==> IsDigit(s[i])
  }

  /** Every character is matched by the regex `.` (anything but a line feed). */
  predicate NoNewline(s: string) {
    forall i :: 0 <= i < |s| ==> s[i] != '\n'
  }

  /** `s` has no leading and no trailing whitespace. */
  predicate IsStripped(s: string) {
    s == [] || (!IsSpace(s[0]) && !IsSpace(s[|s| - 1]))
  }

  /** Python's `s.startswith(prefix)`. */
  predicate StartsWith(s: string, prefix: string) {
    |prefix| <= |s| && s[..|prefix|] == prefix
  }

  /** The end of the run of whitespace that starts at `i`. */
  function SpaceRunEnd(s: string, i: nat): (k: nat)
    requires i <= |s|
    ensures i <= k <= |s| && (k == |s| || !IsSpace(s[k]))
    ensures forall j :: i <= j < k ==> IsSpace(s[j])
    decreases |s| - i
  {
    if i < |s| && IsSpace(s[i]) then SpaceRunEnd(s, i + 1) else i
  }

  /** The run of whitespace from `i` ends where the whitespace stops. */
  lemma SpaceRunEndExact(s: string, i: nat, j: nat)
    requires i <= j <= |s| && AllSpace(s[i..j]) && (j == |s| || !IsSpace(s[j]))
    ensures SpaceRunEnd(s, i) == j
  {
    assert forall m :: i <= m < j ==> s[m] == s[i..j][m - i];
  }

  /** Everything the run from `i` covers is whitespace. */
  lemma SpaceRunAllSpace(s: string, i: nat)
    requires i <= |s|
    ensures AllSpace(s[i..SpaceRunEnd(s, i)])
  {
    var k := SpaceRunEnd(s, i);
    assert forall m :: 0 <= m < k - i ==> s[i..k][m] == s[i + m];
  }

  /** The start of the run of whitespace that ends at `j`. */
  function SpaceRunStart(s: string, j: nat): (k: nat)
    requires j <= |s|
    ensures k <= j && (k == 0 || !IsSpace(s[k - 1]))
    ensures forall m :: k <= m < j ==> IsSpace(s[m])
  {
    if j > 0 && IsSpace(s[j - 1]) then SpaceRunStart(s, j - 1) else j
  }

  /** Python's `s.lstrip()`: drops the longest all-whitespace prefix. */
  function TrimLeft(s: string): (r: string)
    ensures r == [] || !IsSpace(r[0])
  {
    s[SpaceRunEnd(s, 0)..]
  }

  /** Python's `s.rstrip()`: drops the longest all-whitespace suffix. */
  function TrimRight(s: string): (r: string)
    ensures r == [] || !IsSpace(r[|r| - 1])
  {
    s[..SpaceRunStart(s, |s|)]
  }

  /** Python's `s.strip()`. */
  function Strip(s: string): (r: string)
    ensures IsStripped(r)
  {
    TrimRight(TrimLeft(s))
  }

  /** The stripped string is `s` with whitespace, and only whitespace,
      removed at each end: `i` characters before it, the rest after it. */
  lemma StripSurrounds(s: string) returns (i: nat)
    ensures i + |Strip(s)| <= |s|
    ensures AllSpace(s[..i]) && s[i..i + |Strip(s)|] == Strip(s) && AllSpace(s[i + |Strip(s)|..])
  {
    i := SpaceRunEnd(s, 0);
    var l := s[i..];
    var e := SpaceRunStart(l, |l|);
    assert Strip(s) == l[..e];
    assert s[i..i + e] == l[..e];
    assert forall m :: i + e <= m < |s| ==> s[m] == l[m - i];
  }

  /** The stripped string is determined by the input: it is the unique
      whitespace-free-ended core of `s`. */
  lemma StripUnique(a: string, r: string, b: string)
    requires AllSpace(a) && AllSpace(b) && IsStripped(r) && r != []
    ensures Strip(a + r + b) == r
  {
    assert a + r + b == a + (r + b);
    TrimLeftOfSpaces(a, r + b);
    TrimRightOfSpaces(r, b);
  }

  /** Whitespace in front of a text that starts with none is all `lstrip`
      removes. */
  lemma TrimLeftOfSpaces(a: string, t: string)
    requires AllSpace(a) && (t == [] || !IsSpace(t[0]))
    ensures TrimLeft(a + t) == t
  {
    var s := a + t;
    assert forall j :: 0 <= j < |a| ==> s[j] == a[j];
    assert t != [] ==> s[|a|] == t[0];
    assert SpaceRunEnd(s, 0) == |a|;
    assert s[|a|..] == t;
  }

  /** Whitespace after a text that ends in none is all `rstrip` removes. */
  lemma TrimRightOfSpaces(t: string, b: string)
    requires AllSpace(b) && (t == [] || !IsSpace(t[|t| - 1]))
    ensures TrimRight(t + b) == t
  {
    var s := t + b;
    assert forall j :: |t| <= j < |s| ==> s[j] == b[j - |t|];
    assert t != [] ==> s[|t| - 1] == t[|t| - 1];
    assert SpaceRunStart(s, |s|) == |t|;
    assert s[..|t|] == t;
  }

  /** Stripping is idempotent. */
  lemma StripStripped(s: string)
    requires IsStripped(s)
    ensures Strip(s) == s
  {
    assert SpaceRunEnd(s, 0) == 0;
    assert s[0..] == s;
    assert SpaceRunStart(s, |s|) == |s|;
  }

  // ---------------------------------------------------------------------------
  // Decimal numerals: Python's str(int) and JavaScript's String(n) on integers.

  function DigitValue(c: char): nat
    requires IsDigit(c)
  {
    (c as int) - ('0' as int)
  }

  function DigitChar(d: nat): (c: char)
    requires d < 10
    ensures IsDigit(c) && DigitValue(c) == d
  {
    ('0' as int + d) as char
  }

  /** The value of a string of decimal digits (leading zeros allowed). */
  function ParseNat(s: string): nat
    requires AllDigits(s)
  {
    if s == [] then 0 else ParseNat(s[..|s| - 1]) * 10 + DigitValue(s[|s| - 1])
  }

  /** The decimal numeral of `n`, without leading zeros. */
  function NatToString(n: nat): (s: string)
    ensures |s| >= 1 && AllDigits(s)
    ensures s[0] == '0' ==> n == 0
  {
    if n < 10 then [DigitChar(n)] else NatToString(n / 10) + [DigitChar(n % 10)]
  }

  /** Reading the numeral back gives the number. */
  lemma {:induction false} ParseNatToString(n: nat)
    ensures ParseNat(NatToString(n)) == n
  {
    if n >= 10 {
      var s := NatToString(n);
      assert s[..|s| - 1] == NatToString(n / 10);
      ParseNatToString(n / 10);
    }
  }

  /** Python's `str(i)` and JavaScript's `String(i)` for an integer `i`. */
  function IntToString(i: int): (s: string)
    ensures |s| >= 1 && (s[0] == '-' <==> i < 0)
  {
    if i < 0 then "-" + NatToString(-i) else NatToString(i)
  }

  /** The numeral of an integer reads back as it: the digits give the number
      itself, or, after a leading `-`, its magnitude. */
  lemma IntToStringReadsBack(i: int)
    ensures i >= 0 ==> AllDigits(IntToString(i)) && ParseNat(IntToString(i)) == i
    ensures i < 0 ==> var s := IntToString(i);
      s[0] == '-' && AllDigits(s[1..]) && ParseNat(s[1..]) == -i
  {
    if i >= 0 {
      ParseNatToString(i);
    } else {
      var s := IntToString(i);
      assert s[1..] == NatToString(-i);
      ParseNatToString(-i);
    }
  }

  function Repeat(c: char, n: nat): (s: string)
    ensures |s| == n && forall k :: 0 <= k < n ==> s[k] == c
  {
    if n == 0 then [] else [c] + Repeat(c, n - 1)
  }

  /** JavaScript's `s.padStart(width, fill)` for a one-character `fill`. */
  function PadStart(s: string, width: nat, fill: char): (r: string)
    ensures |r| == if |s| >= width then |s| else width
    ensures r == Repeat(fill, |r| - |s|) + s
  {
    if |s| >= width then s else Repeat(fill, width - |s|) + s
  }

  /** Leading zeros do not change the value of a numeral. */
  lemma {:induction false} ParseNatLeadingZeros(z: nat, s: string)
    requires AllDigits(s)
    ensures AllDigits(Repeat('0', z) + s)
    ensures ParseNat(Repeat('0', z) + s) == ParseNat(s)
    decreases |s|
  {
    var t := Repeat('0', z) + s;
    assert AllDigits(t) by {
      forall k | 0 <= k < |t| ensures IsDigit(t[k]) {
        if k >= z { assert t[k] == s[k - z]; }
      }
    }
    if s == [] {
      assert t == Repeat('0', z);
      AllZerosParse(z);
    } else {
      assert t[..|t| - 1] == Repeat('0', z) + s[..|s| - 1];
      ParseNatLeadingZeros(z, s[..|s| - 1]);
    }
  }

  lemma {:induction false} AllZerosParse(z: nat)
    ensures AllDigits(Repeat('0', z)) && ParseNat(Repeat('0', z)) == 0
  {
    if z > 0 {
      var t := Repeat('0', z);
      assert t[..z - 1] == Repeat('0', z - 1);
      AllZerosParse(z - 1);
    }
  }

  // ---------------------------------------------------------------------------
  // Python's `s.replace(pat, rep)`: every non-overlapping occurrence of `pat`,
  // scanning left to right, is replaced by `rep`; the replacement text is not
  // scanned again.

  function ReplaceAll(s: string, pat: string, rep: string): (r: string)
    requires pat != []
    decreases |s|
  {
    if |s| < |pat| then s
    else if StartsWith(s, pat) then rep + ReplaceAll(s[|pat|..], pat, rep)
    else [s[0]] + ReplaceAll(s[1..], pat, rep)
  }

  /** No occurrence of `pat` starts in `s` before position `k`. */
  predicate NoneStartsBefore(s: string, pat: string, k: nat)
    requires k <= |s|
  {
    forall i :: 0 <= i < k ==> !StartsWith(s[i..], pat)
  }

  /** Splitting at `k` after the first character, and putting it back. */
  lemma SplitAfterHead(s: string, k: nat)
    requires 0 < k <= |s|
    ensures s[1..][k - 1..] == s[k..] && [s[0]] + s[1..][..k - 1] == s[..k]
  {
  }

  /** Dropping the first character shifts the positions by one. */
  lemma NoneStartsBeforeTail(s: string, pat: string, k: nat)
    requires 0 < k <= |s| && NoneStartsBefore(s, pat, k)
    ensures NoneStartsBefore(s[1..], pat, k - 1)
  {
    forall i | 0 <= i < k - 1 ensures !StartsWith(s[1..][i..], pat) {
      assert s[1..][i..] == s[i + 1..];
    }
  }

  /** A prefix of `s` in which no occurrence of `pat` starts is copied unchanged. */
  lemma {:induction false} ReplaceAllSkips(s: string, pat: string, rep: string, k: nat)
    requires pat != [] && k <= |s| && NoneStartsBefore(s, pat, k)
    ensures ReplaceAll(s, pat, rep) == s[..k] + ReplaceAll(s[k..], pat, rep)
    decreases k
  {
    if k == 0 {
      assert s[..0] + s[0..] == s;
    } else if |s| < |pat| {
      ReplaceAllShort(s, pat, rep, k);
    } else {
      assert !StartsWith(s, pat) by {
        assert s[0..] == s;
      }
      assert ReplaceAll(s, pat, rep) == [s[0]] + ReplaceAll(s[1..], pat, rep);
      NoneStartsBeforeTail(s, pat, k);
      ReplaceAllSkips(s[1..], pat, rep, k - 1);
      SplitAfterHead(s, k);
    }
  }

  /** A text shorter than the pattern, and each of its suffixes, is copied. */
  lemma ReplaceAllShort(s: string, pat: string, rep: string, k: nat)
    requires pat != [] && k <= |s| < |pat|
    ensures ReplaceAll(s, pat, rep) == s[..k] + ReplaceAll(s[k..], pat, rep)
  {
    assert ReplaceAll(s, pat, rep) == s;
    assert ReplaceAll(s[k..], pat, rep) == s[k..];
    assert s[..k] + s[k..] == s;
  }

  /** Where an occurrence of `pat` starts, it is replaced. */
  lemma ReplaceAllAtOccurrence(s: string, pat: string, rep: string)
    requires pat != [] && StartsWith(s, pat)
    ensures ReplaceAll(s, pat, rep) == rep + ReplaceAll(s[|pat|..], pat, rep)
  {
  }

  /** A string in which `pat` never starts is unchanged by the replacement. */
  lemma ReplaceAllAbsent(s: string, pat: string, rep: string)
    requires pat != [] && NoneStartsBefore(s, pat, |s|)
    ensures ReplaceAll(s, pat, rep) == s
  {
    ReplaceAllSkips(s, pat, rep, |s|);
    assert s[|s|..] == [];
    assert s[..|s|] == s;
  }

  /** Some occurrence of `pat` lies inside `s`. */
  predicate Contains(s: string, pat: string) {
    exists i :: 0 <= i < |s| && StartsWith(s[i..], pat)
  }

  /** The first character of `pat` occurs nowhere else in it (true of both
      placeholders of the page template, which open with their only brace). */
  predicate UniqueHead(pat: string) {
    pat != [] && forall o :: 1 <= o < |pat| ==> pat[o] != pat[0]
  }

  /** An occurrence of `pat` cannot straddle the start of a string that begins
      with the head of `pat`. */
  lemma CutBeforeHead(a: string, b: string, pat: string)
    requires UniqueHead(pat) && b != [] && b[0] == pat[0] && !Contains(a, pat)
    ensures NoneStartsBefore(a + b, pat, |a|)
  {
    forall i | 0 <= i < |a| ensures !StartsWith((a + b)[i..], pat) {
      if i + |pat| <= |a| {
        assert (a + b)[i..][..|pat|] == a[i..][..|pat|];
        assert !StartsWith(a[i..], pat);
      } else {
        var o := |a| - i;
        assert (a + b)[i..][o] == b[0] == pat[0];
        assert pat[o] != pat[0];
      }
    }
  }

  /** A string that opens with a head free of `pat`'s first character, and
      continues with a tail free of `pat`, is free of `pat`. */
  lemma HeadedFree(h: string, t: string, pat: string)
    requires pat != [] && (forall o :: 1 <= o < |h| ==> h[o] != pat[0])
    requires !StartsWith(h + t, pat) && !Contains(t, pat)
    ensures !Contains(h + t, pat)
  {
    forall i | 0 <= i < |h + t| ensures !StartsWith((h + t)[i..], pat) {
      if 1 <= i < |h| {
        assert (h + t)[i..][0] == h[i];
      } else if i >= |h| {
        assert (h + t)[i..] == t[i - |h|..];
      }
    }
  }

  /** Two pattern-free strings joined before a head character of `pat` stay free of it. */
  lemma ConcatFree(x: string, y: string, pat: string)
    requires UniqueHead(pat) && !Contains(x, pat) && !Contains(y, pat)
    requires y == [] || y[0] == pat[0]
    ensures !Contains(x + y, pat)
  {
    if y != [] {
      CutBeforeHead(x, y, pat);
      forall i | |x| <= i < |x + y| ensures !StartsWith((x + y)[i..], pat) {
        assert (x + y)[i..] == y[i - |x|..];
      }
    } else {
      assert x + y == x;
    }
  }

  /** Up to and including the first occurrence, the replacement is done. */
  lemma ReplaceFirst(pre: string, rest: string, pat: string, rep: string)
    requires UniqueHead(pat) && !Contains(pre, pat)
    ensures ReplaceAll(pre + pat + rest, pat, rep) == pre + rep + ReplaceAll(rest, pat, rep)
  {
    var s := pre + pat + rest;
    assert s == pre + (pat + rest);
    CutBeforeHead(pre, pat + rest, pat);
    ReplaceAllSkips(s, pat, rep, |pre|);
    assert s[..|pre|] == pre && s[|pre|..] == pat + rest;
    assert (pat + rest)[|pat|..] == rest;
  }

  /** A single occurrence is replaced and nothing else changes. */
  lemma ReplaceOnce(pre: string, post: string, pat: string, rep: string)
    requires UniqueHead(pat) && !Contains(pre, pat) && !Contains(post, pat)
    ensures ReplaceAll(pre + pat + post, pat, rep) == pre + rep + post
  {
    ReplaceFirst(pre, post, pat, rep);
    ReplaceAllAbsent(post, pat, rep);
  }

  /** Two occurrences are both replaced. */
  lemma ReplaceTwice(a: string, b: string, c: string, pat: string, rep: string)
    requires UniqueHead(pat) && !Contains(a, pat) && !Contains(b, pat) && !Contains(c, pat)
    ensures ReplaceAll(a + pat + b + pat + c, pat, rep) == a + rep + b + rep + c
  {
    var tail := b + pat + c;
    assert a + pat + b + pat + c == a + pat + tail;
    ReplaceFirst(a, tail, pat, rep);
    ReplaceOnce(b, c, pat, rep);
    assert a + rep + (b + rep + c) == a + rep + b + rep + c;
  }

  /** Two patterns that open with the same character, which neither repeats,
      and that differ in their second character. */
  predicate SlotPair(p1: string, p2: string) {
    UniqueHead(p1) && UniqueHead(p2) && |p1| >= 2 && |p2| >= 2 && p1[0] == p2[0] && p1[1] != p2[1]
  }

  lemma SlotPairFree(p1: string, p2: string, post: string)
    requires SlotPair(p1, p2) && !Contains(post, p1)
    ensures !Contains(p2 + post, p1)
  {
    assert (p2 + post)[1] == p2[1];
    HeadedFree(p2, post, p1);
  }

  /** The first pass replaces the first pattern only, whatever follows it. */
  lemma ReplaceFirstSlot(pre: string, mid: string, post: string, p1: string, p2: string, r1: string)
    requires SlotPair(p1, p2)
    requires !Contains(pre, p1) && !Contains(mid, p1) && !Contains(post, p1)
    ensures ReplaceAll(pre + p1 + mid + p2 + post, p1, r1) == pre + r1 + mid + p2 + post
  {
    SlotPairFree(p1, p2, post);
    ConcatFree(mid, p2 + post, p1);
    assert pre + p1 + mid + p2 + post == pre + p1 + (mid + (p2 + post));
    ReplaceOnce(pre, mid + (p2 + post), p1, r1);
    assert pre + r1 + (mid + (p2 + post)) == pre + r1 + mid + p2 + post;
  }

  /** The source's two successive passes on a template with one occurrence of
      each pattern: both are replaced as long as the first replacement text,
      with what surrounds it, does not spell the second pattern. */
  lemma ReplaceInTurn(pre: string, mid: string, post: string, p1: string, p2: string, r1: string, r2: string)
    requires SlotPair(p1, p2)
    requires !Contains(pre, p1) && !Contains(mid, p1) && !Contains(post, p1) && !Contains(post, p2)
    requires !Contains(pre + r1 + mid, p2)
    ensures ReplaceAll(ReplaceAll(pre + p1 + mid + p2 + post, p1, r1), p2, r2) == pre + r1 + mid + r2 + post
  {
    ReplaceFirstSlot(pre, mid, post, p1, p2, r1);
    ReplaceOnce(pre + r1 + mid, post, p2, r2);
  }

  /** A second pattern inside the first replacement text, and the one of the
      template, are both replaced by the second pass. */
  lemma ReplaceSecondTwice(pre: string, mid: string, post: string, open: string, close: string,
                           p2: string, r2: string)
    requires UniqueHead(p2) && !Contains(post, p2)
    requires !Contains(pre + open, p2) && !Contains(close + mid, p2)
    ensures ReplaceAll(pre + (open + p2 + close) + mid + p2 + post, p2, r2)
         == pre + open + r2 + close + mid + r2 + post
  {
    var a, b := pre + open, close + mid;
    assert pre + (open + p2 + close) + mid + p2 + post == a + p2 + b + p2 + post by {
      assert pre + (open + p2 + close) == a + p2 + close;
      assert a + p2 + close + mid == a + p2 + b;
    }
    ReplaceTwice(a, b, post, p2, r2);
    assert a + r2 + b + r2 + post == pre + open + r2 + close + mid + r2 + post by {
      assert a + r2 + b == pre + open + r2 + close + mid;
    }
  }

  /** When the first replacement text spells the second pattern, the second
      pass replaces it there as well. */
  lemma ReplaceInTurnRescans(pre: string, mid: string, post: string, open: string, close: string,
                             p1: string, p2: string, r2: string)
    requires SlotPair(p1, p2)
    requires !Contains(pre, p1) && !Contains(mid, p1) && !Contains(post, p1) && !Contains(post, p2)
    requires !Contains(pre + open, p2) && !Contains(close + mid, p2)
    ensures ReplaceAll(ReplaceAll(pre + p1 + mid + p2 + post, p1, open + p2 + close), p2, r2)
         == pre + open + r2 + close + mid + r2 + post
  {
    ReplaceFirstSlot(pre, mid, post, p1, p2, open + p2 + close);
    ReplaceSecondTwice(pre, mid, post, open, close, p2, r2);
  }

  // ---------------------------------------------------------------------------
  // Both patterns replaced in a single left-to-right pass, so that no
  // replacement text is scanned again.

  function ReplaceBoth(s: string, p1: string, r1: string, p2: string, r2: string): string
    requires p1 != [] && p2 != []
    decreases |s|
  {
    if s == [] then []
    else if StartsWith(s, p1) then r1 + ReplaceBoth(s[|p1|..], p1, r1, p2, r2)
    else if StartsWith(s, p2) then r2 + ReplaceBoth(s[|p2|..], p1, r1, p2, r2)
    else [s[0]] + ReplaceBoth(s[1..], p1, r1, p2, r2)
  }

  lemma {:induction false} ReplaceBothSkips(s: string, p1: string, r1: string, p2: string, r2: string, k: nat)
    requires p1 != [] && p2 != [] && k <= |s|
    requires NoneStartsBefore(s, p1, k) && NoneStartsBefore(s, p2, k)
    ensures ReplaceBoth(s, p1, r1, p2, r2) == s[..k] + ReplaceBoth(s[k..], p1, r1, p2, r2)
    decreases k
  {
    if k == 0 {
      assert s[..0] + s[0..] == s;
    } else {
      assert !StartsWith(s, p1) && !StartsWith(s, p2) by {
        assert s[0..] == s;
      }
      ReplaceBothCopiesHead(s, p1, r1, p2, r2);
      NoneStartsBeforeTail(s, p1, k);
      NoneStartsBeforeTail(s, p2, k);
      ReplaceBothSkips(s[1..], p1, r1, p2, r2, k - 1);
      SplitAfterHead(s, k);
    }
  }

  /** Where neither pattern starts, the first character is copied. */
  lemma ReplaceBothCopiesHead(s: string, p1: string, r1: string, p2: string, r2: string)
    requires p1 != [] && p2 != [] && s != [] && !StartsWith(s, p1) && !StartsWith(s, p2)
    ensures ReplaceBoth(s, p1, r1, p2, r2) == [s[0]] + ReplaceBoth(s[1..], p1, r1, p2, r2)
  {
  }

  /** One pass changes nothing in a string without either pattern. */
  lemma ReplaceBothAbsent(s: string, p1: string, r1: string, p2: string, r2: string)
    requires p1 != [] && p2 != [] && !Contains(s, p1) && !Contains(s, p2)
    ensures ReplaceBoth(s, p1, r1, p2, r2) == s
  {
    ReplaceBothSkips(s, p1, r1, p2, r2, |s|);
    assert s[..|s|] == s && s[|s|..] == [];
  }

  /** A prefix holding neither pattern, before a text that opens with their
      common first character, is copied unchanged. */
  lemma ReplaceBothAcross(pre: string, rest: string, p1: string, r1: string, p2: string, r2: string)
    requires SlotPair(p1, p2) && !Contains(pre, p1) && !Contains(pre, p2)
    requires rest != [] && rest[0] == p1[0]
    ensures ReplaceBoth(pre + rest, p1, r1, p2, r2) == pre + ReplaceBoth(rest, p1, r1, p2, r2)
  {
    CutBeforeHead(pre, rest, p1);
    CutBeforeHead(pre, rest, p2);
    ReplaceBothSkips(pre + rest, p1, r1, p2, r2, |pre|);
    assert (pre + rest)[..|pre|] == pre && (pre + rest)[|pre|..] == rest;
  }

  /** At an occurrence of the first pattern its text is put in. */
  lemma ReplaceBothAtFirst(y: string, p1: string, r1: string, p2: string, r2: string)
    requires p1 != [] && p2 != []
    ensures ReplaceBoth(p1 + y, p1, r1, p2, r2) == r1 + ReplaceBoth(y, p1, r1, p2, r2)
  {
    var s := p1 + y;
    assert s[..|p1|] == p1 && s[|p1|..] == y;
  }

  /** At an occurrence of the second pattern its text is put in. */
  lemma ReplaceBothAtSecond(y: string, p1: string, r1: string, p2: string, r2: string)
    requires SlotPair(p1, p2)
    ensures ReplaceBoth(p2 + y, p1, r1, p2, r2) == r2 + ReplaceBoth(y, p1, r1, p2, r2)
  {
    var s := p2 + y;
    assert s[1] == p2[1] && s[..|p2|] == p2 && s[|p2|..] == y;
    assert !StartsWith(s, p1) by {
      if |p1| <= |s| {
        assert s[..|p1|][1] == s[1];
      }
    }
  }

  /** From an occurrence of the first pattern on, each occurrence is
      replaced by its own text. */
  lemma ReplaceBothFromFirst(mid: string, post: string, p1: string, p2: string, r1: string, r2: string)
    requires SlotPair(p1, p2)
    requires !Contains(mid, p1) && !Contains(post, p1) && !Contains(mid, p2) && !Contains(post, p2)
    ensures ReplaceBoth(p1 + mid + p2 + post, p1, r1, p2, r2) == r1 + mid + r2 + post
  {
    var tail := p2 + post;
    assert p1 + mid + p2 + post == p1 + (mid + tail);
    ReplaceBothAtFirst(mid + tail, p1, r1, p2, r2);
    ReplaceBothAcross(mid, tail, p1, r1, p2, r2);
    ReplaceBothAtSecond(post, p1, r1, p2, r2);
    ReplaceBothAbsent(post, p1, r1, p2, r2);
    assert r1 + (mid + (r2 + post)) == r1 + mid + r2 + post;
  }

  /** In one pass each occurrence is replaced by its own text, whatever the
      replacement texts hold. */
  lemma ReplaceBothOnce(pre: string, mid: string, post: string, p1: string, p2: string, r1: string, r2: string)
    requires SlotPair(p1, p2)
    requires !Contains(pre, p1) && !Contains(mid, p1) && !Contains(post, p1)
    requires !Contains(pre, p2) && !Contains(mid, p2) && !Contains(post, p2)
    ensures ReplaceBoth(pre + p1 + mid + p2 + post, p1, r1, p2, r2) == pre + r1 + mid + r2 + post
  {
    var rest := p1 + mid + p2 + post;
    assert pre + p1 + mid + p2 + post == pre + rest;
    assert rest[0] == p1[0];
    ReplaceBothAcross(pre, rest, p1, r1, p2, r2);
    ReplaceBothFromFirst(mid, post, p1, p2, r1, r2);
    assert pre + (r1 + mid + r2 + post) == pre + r1 + mid + r2 + post;
  }
}
