/**
 * The parts of Python's `str` type that the services use: the whitespace class shared by
 * `str.isspace`, the regex class `\s` and `str.split()`, ASCII case mapping, `split`,
 * `strip`, `join`, the `in` operator on strings, `replace` and integer formatting.
 */
module PyStr {

  /** `c.isspace()`: the characters `str.split()` and the regex class `\s` treat as whitespace. */
  predicate IsSpace(c: char)
  {
    || ('\t' <= c <= '\r')
    || ('\U{1C}' <= c <= '\U{1F}')
    || c == ' '
    || c == '\U{85}'
    || c == '\U{A0}'
    || c == '\U{1680}'
    || ('\U{2000}' <= c <= '\U{200A}')
    || c == '\U{2028}'
    || c == '\U{2029}'
    || c == '\U{202F}'
    || c == '\U{205F}'
    || c == '\U{3000}'
  }

  predicate NoSpace(s: string)
  {
    forall i :: 0 <= i < |s| ==> !IsSpace(s[i])
  }

  predicate AllSpace(s: string)
  {
    forall i :: 0 <= i < |s| ==> IsSpace(s[i])
  }

  // ---------------------------------------------------------------------------
  // Case mapping (ASCII letters only; Hangul has no case)
  // ---------------------------------------------------------------------------

  function LowerChar(c: char): char
  {
    if 'A' <= c <= 'Z' then (c as int + 32) as char else c
  }

  function UpperChar(c: char): char
  {
    if 'a' <= c <= 'z' then (c as int - 32) as char else c
  }

  /** `s.lower()`. */
  function Lower(s: string): (r: string)
    ensures |r| == |s|
    ensures forall i :: 0 <= i < |s| ==> r[i] == LowerChar(s[i])
  {
    seq(|s|, i requires 0 <= i < |s| => LowerChar(s[i]))
  }

  /** `s.upper()`. */
  function Upper(s: string): (r: string)
    ensures |r| == |s|
    ensures forall i :: 0 <= i < |s| ==> r[i] == UpperChar(s[i])
  {
    seq(|s|, i requires 0 <= i < |s| => UpperChar(s[i]))
  }

  lemma LowerIdempotent(s: string)
    ensures Lower(Lower(s)) == Lower(s)
  {
    assert forall i :: 0 <= i < |s| ==> LowerChar(LowerChar(s[i])) == LowerChar(s[i]);
  }

  // ---------------------------------------------------------------------------
  // split(), strip()
  // ---------------------------------------------------------------------------

  /** The longest prefix of `s` without whitespace. */
  function Word(s: string): (w: string)
    ensures w <= s
    ensures NoSpace(w)
    ensures |w| < |s| ==> IsSpace(s[|w|])
    ensures s != [] && !IsSpace(s[0]) ==> |w| >= 1
  {
    if s == [] || IsSpace(s[0]) then [] else [s[0]] + Word(s[1..])
  }

  /** `s.split()`: the maximal runs of non-whitespace characters, in order. */
  function Split(s: string): seq<string>
    decreases |s|
  {
    if s == [] then []
    else if IsSpace(s[0]) then Split(s[1..])
    else
      var w := Word(s);
      [w] + Split(s[|w|..])
  }

  /** `s.lstrip()`. */
  function LStrip(s: string): (r: string)
    ensures |r| <= |s|
    ensures r == [] || !IsSpace(r[0])
  {
    if s != [] && IsSpace(s[0]) then LStrip(s[1..]) else s
  }

  /** `lstrip()` returns a suffix of its input. */
  lemma {:induction false} LStripSuffix(s: string)
    ensures LStrip(s) == s[|s| - |LStrip(s)|..]
    decreases |s|
  {
    if s != [] && IsSpace(s[0]) {
      LStripSuffix(s[1..]);
      assert s[1..][|s[1..]| - |LStrip(s[1..])|..] == s[|s| - |LStrip(s)|..];
    }
  }

  /** `s.rstrip()`. */
  function RStrip(s: string): (r: string)
    ensures r <= s
    ensures r == [] || !IsSpace(r[|r| - 1])
  {
    if s != [] && IsSpace(s[|s| - 1]) then RStrip(s[..|s| - 1]) else s
  }

  /** `s.strip()`. */
  function Strip(s: string): (r: string)
    ensures |r| <= |s|
    ensures r == [] || (!IsSpace(r[0]) && !IsSpace(r[|r| - 1]))
  {
    var l := LStrip(s);
    var r := RStrip(l);
    assert r != [] ==> r[0] == l[0];
    r
  }

  /** Where `strip()` starts cutting: the length of the leading whitespace. */
  function StripStart(s: string): (a: nat)
    ensures a <= |s| && LStrip(s) == s[a..]
  {
    LStripSuffix(s);
    |s| - |LStrip(s)|
  }

  /** `strip()` returns the piece of its input that starts after the leading whitespace. */
  lemma StripSlice(s: string)
    ensures StripStart(s) + |Strip(s)| <= |s|
    ensures Strip(s) == s[StripStart(s)..StripStart(s) + |Strip(s)|]
  {
    var l := LStrip(s);
    var r := RStrip(l);
    assert Strip(s) == r;
    PrefixOfSuffix(s, l, r, StripStart(s));
  }

  lemma PrefixOfSuffix<T>(s: seq<T>, l: seq<T>, r: seq<T>, a: nat)
    requires a <= |s| && l == s[a..] && r <= l
    ensures a + |r| <= |s| && r == s[a..a + |r|]
  {
    assert r == l[..|r|];
  }

  /** `sep.join(parts)`. */
  function Join(sep: string, parts: seq<string>): string
  {
    if |parts| == 0 then []
    else if |parts| == 1 then parts[0]
    else parts[0] + sep + Join(sep, parts[1..])
  }

  /** `s.split(sep)` for a one-character separator: always at least one (possibly empty) part. */
  function SplitOn(s: string, sep: char): (parts: seq<string>)
    ensures |parts| >= 1
  {
    if s == [] then [[]]
    else if s[0] == sep then [[]] + SplitOn(s[1..], sep)
    else
      var rest := SplitOn(s[1..], sep);
      [[s[0]] + rest[0]] + rest[1..]
  }

  /** `w in text` for strings: `w` occurs as a contiguous substring (the empty string always does). */
  predicate Contains(text: string, w: string)
    decreases |text|
  {
    w <= text || (text != [] && Contains(text[1..], w))
  }

  /** `s.endswith(suffix)` (`s.startswith(prefix)` is Dafny's `prefix <= s`). */
  predicate EndsWith(s: string, suffix: string)
  {
    |suffix| <= |s| && s[|s| - |suffix|..] == suffix
  }

  /** `s.replace(pat, rep)`: leftmost, non-overlapping occurrences. */
  function ReplaceAll(s: string, pat: string, rep: string): string
    requires pat != []
    decreases |s|
  {
    if |s| < |pat| then s
    else if pat <= s then rep + ReplaceAll(s[|pat|..], pat, rep)
    else [s[0]] + ReplaceAll(s[1..], pat, rep)
  }

  /** The characters of `s` that are not whitespace, in order. */
  function RemoveSpaces(s: string): (r: string)
    ensures NoSpace(r)
  {
    if s == [] then []
    else (if IsSpace(s[0]) then [] else [s[0]]) + RemoveSpaces(s[1..])
  }

  // ---------------------------------------------------------------------------
  // Integer formatting: str(n) and format(n, '0Nd')
  // ---------------------------------------------------------------------------

  function DigitChar(d: nat): char
    requires d < 10
  {
    ('0' as int + d) as char
  }

  predicate IsDigit(c: char)
  {
    '0' <= c <= '9'
  }

  function DigitValue(c: char): nat
    requires IsDigit(c)
  {
    c as int - '0' as int
  }

  /** The decimal digits of `n`, most significant first, without leading zeros. */
  function NatToStr(n: nat): (s: string)
    ensures |s| >= 1
    ensures forall i :: 0 <= i < |s| ==> IsDigit(s[i])
    decreases n
  {
    if n < 10 then [DigitChar(n)] else NatToStr(n / 10) + [DigitChar(n % 10)]
  }

  /** `str(n)`. */
  function IntToStr(n: int): string
  {
    if n < 0 then "-" + NatToStr(-n) else NatToStr(n)
  }

  function Repeat(c: char, k: nat): (s: string)
    ensures |s| == k
    ensures forall i :: 0 <= i < k ==> s[i] == c
  {
    seq(k, i => c)
  }

  /** Left-pads a digit string with zeros to `width` characters. */
  function ZeroPad(s: string, width: nat): (r: string)
    ensures |r| == if |s| < width then width else |s|
  {
    if |s| < width then Repeat('0', width - |s|) + s else s
  }

  /** `format(n, '0<width>d')`: the sign, when there is one, counts towards the width. */
  function PadInt(n: int, width: nat): string
  {
    if n < 0 then "-" + ZeroPad(NatToStr(-n), if width > 0 then width - 1 else 0)
    else ZeroPad(NatToStr(n), width)
  }

  /** The value of a string of decimal digits. */
  function DigitsValue(s: string): nat
    requires forall i :: 0 <= i < |s| ==> IsDigit(s[i])
  {
    if s == [] then 0 else DigitsValue(s[..|s| - 1]) * 10 + DigitValue(s[|s| - 1])
  }

  function Pow10(k: nat): (p: nat)
    ensures p >= 1
  {
    if k == 0 then 1 else 10 * Pow10(k - 1)
  }

  // ---------------------------------------------------------------------------
  // Lemmas about split(), join() and strip()
  // ---------------------------------------------------------------------------

  /** Every piece `split()` returns is non-empty and free of whitespace. */
  lemma {:induction false} SplitWordsClean(s: string)
    ensures forall j :: 0 <= j < |Split(s)| ==> Split(s)[j] != [] && NoSpace(Split(s)[j])
    decreases |s|
  {
    if s == [] {
    } else if IsSpace(s[0]) {
      SplitWordsClean(s[1..]);
    } else {
      SplitWordsClean(s[|Word(s)|..]);
    }
  }

  lemma {:induction false} SplitLeadingSpace(s: string)
    requires s != [] && IsSpace(s[0])
    ensures Split(s) == Split(s[1..])
  {
  }

  /** Leading whitespace does not change `split()`. */
  lemma {:induction false} SplitLStrip(s: string)
    ensures Split(LStrip(s)) == Split(s)
    decreases |s|
  {
    if s != [] && IsSpace(s[0]) {
      SplitLStrip(s[1..]);
    }
  }

  lemma {:induction false} WordOfWordThenSpace(w: string, rest: string)
    requires NoSpace(w)
    requires rest == [] || IsSpace(rest[0])
    ensures Word(w + rest) == w
    decreases |w|
  {
    if w == [] {
      assert w + rest == rest;
    } else {
      assert (w + rest)[1..] == w[1..] + rest;
      WordOfWordThenSpace(w[1..], rest);
    }
  }

  lemma {:induction false} WordAppend(s: string, t: string)
    requires t == [] || IsSpace(t[0])
    ensures Word(s + t) == Word(s)
    decreases |s|
  {
    if s == [] {
      assert s + t == t;
    } else if IsSpace(s[0]) {
    } else {
      assert (s + t)[1..] == s[1..] + t;
      WordAppend(s[1..], t);
    }
  }

  /** A non-empty word followed by whitespace (or nothing) is the first piece of `split()`. */
  lemma {:induction false} SplitWordThenRest(w: string, rest: string)
    requires w != [] && NoSpace(w)
    requires rest == [] || IsSpace(rest[0])
    ensures Split(w + rest) == [w] + Split(rest)
  {
    WordOfWordThenSpace(w, rest);
    assert (w + rest)[|w|..] == rest;
  }

  /** Trailing whitespace does not change `split()`. */
  lemma {:induction false} SplitAppendSpaces(s: string, t: string)
    requires AllSpace(t)
    ensures Split(s + t) == Split(s)
    decreases |s|
  {
    if s == [] {
      assert s + t == t;
      SplitAllSpace(t);
    } else if IsSpace(s[0]) {
      assert (s + t)[1..] == s[1..] + t;
      SplitAppendSpaces(s[1..], t);
    } else {
      var w := Word(s);
      WordAppend(s, t);
      assert (s + t)[|w|..] == s[|w|..] + t;
      SplitAppendSpaces(s[|w|..], t);
    }
  }

  lemma {:induction false} SplitAllSpace(t: string)
    requires AllSpace(t)
    ensures Split(t) == []
    decreases |t|
  {
    if t != [] {
      SplitAllSpace(t[1..]);
    }
  }

  lemma {:induction false} SplitRStrip(s: string)
    ensures Split(RStrip(s)) == Split(s)
    decreases |s|
  {
    if s != [] && IsSpace(s[|s| - 1]) {
      var p := s[..|s| - 1];
      assert s == p + [s[|s| - 1]];
      SplitAppendSpaces(p, [s[|s| - 1]]);
      SplitRStrip(p);
    }
  }

  /** `strip()` does not change `split()`. */
  lemma SplitStrip(s: string)
    ensures Split(Strip(s)) == Split(s)
  {
    SplitLStrip(s);
    SplitRStrip(LStrip(s));
  }

  /** Single-spaced text: no whitespace at either end, every whitespace character is a plain
      space, and no two whitespace characters are adjacent. */
  predicate SingleSpaced(r: string)
  {
    && (r == [] || (!IsSpace(r[0]) && !IsSpace(r[|r| - 1])))
    && (forall i :: 0 <= i < |r| && IsSpace(r[i]) ==> r[i] == ' ')
    && (forall i :: 0 <= i < |r| - 1 ==> !(IsSpace(r[i]) && IsSpace(r[i + 1])))
  }

  lemma {:induction false} JoinCons(sep: string, w: string, rest: seq<string>)
    requires rest != []
    ensures Join(sep, [w] + rest) == w + sep + Join(sep, rest)
  {
    assert ([w] + rest)[1..] == rest;
  }

  lemma SingleSpacedAfterSpace(r: string, k: nat)
    requires SingleSpaced(r)
    requires k < |r| && IsSpace(r[k])
    ensures SingleSpaced(r[k + 1..])
    ensures r[k + 1..] != []
  {
    var tail := r[k + 1..];
    forall i | 0 <= i < |tail| - 1
      ensures !(IsSpace(tail[i]) && IsSpace(tail[i + 1]))
    {
      assert tail[i] == r[k + 1 + i] && tail[i + 1] == r[k + 2 + i];
    }
    assert k != |r| - 1;
    assert tail[0] == r[k + 1];
  }

  lemma SplitAtFirstSpace(r: string)
    requires SingleSpaced(r) && r != []
    requires |Word(r)| < |r|
    ensures r == Word(r) + " " + r[|Word(r)| + 1..]
    ensures Split(r) == [Word(r)] + Split(r[|Word(r)| + 1..])
  {
    var w := Word(r);
    assert r[|w|] == ' ';
    assert r[|w|..][1..] == r[|w| + 1..];
    SplitLeadingSpace(r[|w|..]);
  }

  /** Single-spaced text is exactly its words joined by single spaces. */
  lemma {:induction false} JoinSplitSingleSpaced(r: string)
    requires SingleSpaced(r)
    ensures Join(" ", Split(r)) == r
    decreases |r|
  {
    if r != [] {
      var w := Word(r);
      if |w| == |r| {
        assert r[|w|..] == [];
        assert Split(r) == [w];
      } else {
        var tail := r[|w| + 1..];
        SplitAtFirstSpace(r);
        SingleSpacedAfterSpace(r, |w|);
        JoinSplitSingleSpaced(tail);
        JoinCons(" ", w, Split(tail));
      }
    }
  }

  /** Joining clean words with single spaces and splitting again gives the words back. */
  lemma {:induction false} SplitJoinSpace(ws: seq<string>)
    requires forall j :: 0 <= j < |ws| ==> ws[j] != [] && NoSpace(ws[j])
    ensures Split(Join(" ", ws)) == ws
    decreases |ws|
  {
    if |ws| == 0 {
    } else if |ws| == 1 {
      assert ws[0] + [] == ws[0];
      SplitWordThenRest(ws[0], []);
    } else {
      var rest := Join(" ", ws[1..]);
      JoinCons(" ", ws[0], ws[1..]);
      assert ws[0] + " " + rest == ws[0] + (" " + rest);
      SplitWordThenRest(ws[0], " " + rest);
      assert (" " + rest)[1..] == rest;
      SplitLeadingSpace(" " + rest);
      SplitJoinSpace(ws[1..]);
    }
  }

  lemma {:induction false} RemoveSpacesAppend(a: string, b: string)
    ensures RemoveSpaces(a + b) == RemoveSpaces(a) + RemoveSpaces(b)
    decreases |a|
  {
    if a == [] {
      assert a + b == b;
    } else {
      assert (a + b)[1..] == a[1..] + b;
      RemoveSpacesAppend(a[1..], b);
    }
  }

  lemma {:induction false} RemoveSpacesOfNoSpace(w: string)
    requires NoSpace(w)
    ensures RemoveSpaces(w) == w
    decreases |w|
  {
    if w != [] {
      RemoveSpacesOfNoSpace(w[1..]);
    }
  }

  lemma {:induction false} JoinEmptyCons(w: string, rest: seq<string>)
    ensures Join("", [w] + rest) == w + Join("", rest)
  {
    if rest == [] {
      assert [w] + rest == [w];
    } else {
      JoinCons("", w, rest);
    }
  }

  /** `"".join(s.split())` removes exactly the whitespace characters of `s`. */
  lemma {:induction false} JoinEmptySplit(s: string)
    ensures Join("", Split(s)) == RemoveSpaces(s)
    decreases |s|
  {
    if s == [] {
    } else if IsSpace(s[0]) {
      JoinEmptySplit(s[1..]);
    } else {
      var w := Word(s);
      var rest := s[|w|..];
      JoinEmptyCons(w, Split(rest));
      JoinEmptySplit(rest);
      assert s == w + rest;
      RemoveSpacesAppend(w, rest);
      RemoveSpacesOfNoSpace(w);
    }
  }

  // ---------------------------------------------------------------------------
  // Lemmas about number formatting
  // ---------------------------------------------------------------------------

  lemma {:induction false} DigitsValueOfNatToStr(n: nat)
    ensures DigitsValue(NatToStr(n)) == n
    decreases n
  {
    if n >= 10 {
      var s := NatToStr(n);
      assert s[..|s| - 1] == NatToStr(n / 10);
      DigitsValueOfNatToStr(n / 10);
    }
  }

  lemma {:induction false} NatToStrLength(n: nat, w: nat)
    requires w >= 1 && n < Pow10(w)
    ensures |NatToStr(n)| <= w
    decreases w
  {
    if n >= 10 {
      assert w >= 2;
      assert n / 10 < Pow10(w - 1);
      NatToStrLength(n / 10, w - 1);
    }
  }

  lemma {:induction false} DigitsValueLeadingZeros(k: nat, s: string)
    requires forall i :: 0 <= i < |s| ==> IsDigit(s[i])
    ensures forall i :: 0 <= i < |Repeat('0', k) + s| ==> IsDigit((Repeat('0', k) + s)[i])
    ensures DigitsValue(Repeat('0', k) + s) == DigitsValue(s)
    decreases |s|
  {
    var z := Repeat('0', k) + s;
    if s == [] {
      assert z == Repeat('0', k);
      ZerosValue(k);
    } else {
      assert z[..|z| - 1] == Repeat('0', k) + s[..|s| - 1];
      DigitsValueLeadingZeros(k, s[..|s| - 1]);
    }
  }

  lemma {:induction false} ZerosValue(k: nat)
    ensures DigitsValue(Repeat('0', k)) == 0
    decreases k
  {
    if k > 0 {
      assert Repeat('0', k)[..k - 1] == Repeat('0', k - 1);
      ZerosValue(k - 1);
    }
  }

  /** Reading back a zero-padded field gives the number that was formatted. */
  lemma PadIntRoundTrip(n: nat, width: nat)
    requires width >= 1 && n < Pow10(width)
    ensures |PadInt(n, width)| == width
    ensures forall i :: 0 <= i < width ==> IsDigit(PadInt(n, width)[i])
    ensures DigitsValue(PadInt(n, width)) == n
  {
    NatToStrLength(n, width);
    var s := NatToStr(n);
    DigitsValueOfNatToStr(n);
    DigitsValueLeadingZeros(width - |s|, s);
    if |s| == width {
      assert Repeat('0', 0) + s == s;
    }
  }

  // ---------------------------------------------------------------------------
  // strip, split and replace on text of a known shape
  // ---------------------------------------------------------------------------

  /** A text without surrounding whitespace is its own `strip()`. */
  lemma StripTrimmed(s: string)
    requires s == [] || (!IsSpace(s[0]) && !IsSpace(s[|s| - 1]))
    ensures Strip(s) == s
  {
  }

  /** `rstrip()` keeps everything up to the last character that is not whitespace. */
  lemma {:induction false} RStripKeeps(s: string, k: nat)
    requires k < |s| && !IsSpace(s[k])
    ensures |RStrip(s)| > k
    decreases |s|
  {
    if IsSpace(s[|s| - 1]) {
      RStripKeeps(s[..|s| - 1], k);
    }
  }

  /** `(" " + s).strip()` is `s` for a text without surrounding whitespace. */
  lemma StripAfterSpace(s: string)
    requires s == [] || (!IsSpace(s[0]) && !IsSpace(s[|s| - 1]))
    ensures Strip(" " + s) == s
  {
    assert (" " + s)[1..] == s;
    assert LStrip(" " + s) == LStrip(s);
  }

  /** `s.split(sep)` of a text without `sep` is that text alone. */
  lemma {:induction false} SplitOnNone(s: string, sep: char)
    requires sep !in s
    ensures SplitOn(s, sep) == [s]
  {
    if s != [] {
      SplitOnNone(s[1..], sep);
      assert [s[0]] + s[1..] == s;
    }
  }

  /** Splitting at a separator that is not in the first part. */
  lemma {:induction false} SplitOnAt(a: string, sep: char, b: string)
    requires sep !in a
    ensures SplitOn(a + [sep] + b, sep) == [a] + SplitOn(b, sep)
  {
    if a == [] {
      assert a + [sep] + b == [sep] + b;
      assert ([sep] + b)[1..] == b;
    } else {
      var t := a + [sep] + b;
      assert t[0] == a[0] && t[1..] == a[1..] + [sep] + b;
      SplitOnAt(a[1..], sep, b);
      var rest := SplitOn(t[1..], sep);
      assert rest[0] == a[1..] && rest[1..] == SplitOn(b, sep);
      assert [a[0]] + a[1..] == a;
    }
  }

  /** A text holding a word holds every prefix of it. */
  lemma {:induction false} ContainsPrefix(text: string, w: string, v: string)
    requires v <= w
    ensures Contains(text, w) ==> Contains(text, v)
    decreases |text|
  {
    if text != [] {
      ContainsPrefix(text[1..], w, v);
    }
  }

  /** `replace` changes nothing in a text that does not hold the pattern. */
  lemma {:induction false} ReplaceAbsent(s: string, pat: string, rep: string)
    requires pat != [] && !Contains(s, pat)
    ensures ReplaceAll(s, pat, rep) == s
    decreases |s|
  {
    if |s| >= |pat| {
      ReplaceAbsent(s[1..], pat, rep);
      assert [s[0]] + s[1..] == s;
    }
  }
}

/** Python's slicing of lists and strings with possibly negative bounds. */
module PyList {

  /** `s[:k]` */
  function SliceTo<T>(s: seq<T>, k: int): (r: seq<T>)
    ensures r <= s
    ensures k >= 0 ==> |r| == if k < |s| then k else |s|
    ensures k < 0 ==> |r| == if |s| + k > 0 then |s| + k else 0
  {
    if k >= 0 then (if k < |s| then s[..k] else s)
    else if |s| + k > 0 then s[..|s| + k]
    else []
  }

  /** `s[k:]` */
  function SliceFrom<T>(s: seq<T>, k: int): (r: seq<T>)
    ensures |r| <= |s| && r == s[|s| - |r|..]
    ensures k < 0 ==> |r| == if -k < |s| then -k else |s|
    ensures k >= 0 ==> |r| == if k < |s| then |s| - k else 0
  {
    if k >= 0 then (if k < |s| then s[k..] else [])
    else if |s| + k > 0 then s[|s| + k..]
    else s
  }
}
