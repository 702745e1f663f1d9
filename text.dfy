/** The Python string built-ins the source relies on, over `string` (a
    sequence of characters): slicing with clamped bounds, `startswith`,
    `strip`, `split()` on whitespace runs, `split(" ")` on one separator,
    `int()` of decimal text, `str()` of an integer and the `{n:02}` format.
    Only the ASCII whitespace characters are treated as whitespace. */
module Text {
  import opened Wrappers

  /** `str.isspace()` restricted to ASCII. */
  predicate IsSpace(c: char) {
    c == ' ' || c == '\t' || c == '\n' || c == '\r'
    || c as int == 0x0B || c as int == 0x0C          // vertical tab, form feed
    || 0x1C <= c as int <= 0x1F                      // file, group, record, unit separators
  }

  predicate IsDigit(c: char) { '0' <= c <= '9' }

  predicate NoSpace(s: string) { forall i :: 0 <= i < |s| ==> !IsSpace(s[i]) }

  predicate AllSpace(s: string) { forall i :: 0 <= i < |s| ==> IsSpace(s[i]) }

  /** Python's `s[lo:hi]` for non-negative bounds: both are clamped to `len(s)`. */
  function Slice(s: string, lo: nat, hi: nat): string
    requires lo <= hi
  {
    if hi <= |s| then s[lo..hi] else if lo <= |s| then s[lo..] else ""
  }

  /** A slice holds the characters of `s` from `lo` on, as many as both
      bounds allow. (Kept as a lemma so that the many slices of a parsed line
      do not each bring these facts into every proof.) */
  lemma SliceContents(s: string, lo: nat, hi: nat)
    requires lo <= hi
    ensures |Slice(s, lo, hi)| == (if hi <= |s| then hi - lo else if lo <= |s| then |s| - lo else 0)
    ensures forall i :: 0 <= i < |Slice(s, lo, hi)| ==> Slice(s, lo, hi)[i] == s[lo + i]
  {
  }

  /** Python's `s.startswith(prefix)`. */
  predicate StartsWith(s: string, prefix: string) {
    |prefix| <= |s| && s[..|prefix|] == prefix
  }

  function LStrip(s: string): string {
    if s != [] && IsSpace(s[0]) then LStrip(s[1..]) else s
  }

  function RStrip(s: string): string {
    if s != [] && IsSpace(s[|s| - 1]) then RStrip(s[..|s| - 1]) else s
  }

  /** Python's `s.strip()`: leading and trailing whitespace removed. */
  function Strip(s: string): string {
    RStrip(LStrip(s))
  }

  /** `lstrip` removes a run of whitespace from the front and stops at the
      first other character. */
  lemma {:induction false} LStripSuffix(s: string)
    ensures var r := LStrip(s);
            (r == [] || !IsSpace(r[0])) && |r| <= |s| && r == s[|s| - |r|..] && AllSpace(s[..|s| - |r|])
  {
    if s != [] && IsSpace(s[0]) {
      LStripSuffix(s[1..]);
    }
  }

  /** `rstrip` removes a run of whitespace from the back and stops at the
      last other character. */
  lemma {:induction false} RStripPrefix(s: string)
    ensures var r := RStrip(s);
            (r == [] || !IsSpace(r[|r| - 1])) && |r| <= |s| && r == s[..|r|] && AllSpace(s[|r|..])
  {
    if s != [] && IsSpace(s[|s| - 1]) {
      RStripPrefix(s[..|s| - 1]);
    }
  }

  /** `strip` leaves no whitespace at either end and keeps a contiguous
      middle part of the text framed by whitespace. */
  lemma StripTrims(s: string)
    ensures var r := Strip(s);
            (r == [] || (!IsSpace(r[0]) && !IsSpace(r[|r| - 1])))
            && (exists lo :: 0 <= lo <= |s| - |r| && r == s[lo..lo + |r|]
                 && AllSpace(s[..lo]) && AllSpace(s[lo + |r|..]))
  {
    var l := LStrip(s);
    LStripSuffix(s);
    RStripPrefix(l);
    var r := RStrip(l);
    var lo := |s| - |l|;
    assert r == s[lo..lo + |r|];
    assert s[lo + |r|..] == l[|r|..];
    if r != [] && l != [] {
      assert r[0] == l[0];
    }
  }

  /** Stripping text that is framed by whitespace gives back the text. */
  lemma {:induction false} StripFramed(pre: string, w: string, post: string)
    requires AllSpace(pre) && AllSpace(post)
    requires w != [] && !IsSpace(w[0]) && !IsSpace(w[|w| - 1])
    ensures Strip(pre + w + post) == w
  {
    LStripSpaces(pre, w + post);
    assert pre + w + post == pre + (w + post);
    RStripSpaces(w, post);
  }

  lemma {:induction false} LStripSpaces(pre: string, t: string)
    requires AllSpace(pre) && t != [] && !IsSpace(t[0])
    ensures LStrip(pre + t) == t
  {
    if pre != [] {
      assert (pre + t)[1..] == pre[1..] + t;
      LStripSpaces(pre[1..], t);
    }
  }

  lemma {:induction false} RStripSpaces(t: string, post: string)
    requires AllSpace(post) && t != [] && !IsSpace(t[|t| - 1])
    ensures RStrip(t + post) == t
  {
    if post != [] {
      assert (t + post)[..|t + post| - 1] == t + post[..|post| - 1];
      RStripSpaces(t, post[..|post| - 1]);
    } else {
      assert t + post == t;
    }
  }

  /** The longest prefix of `s` that holds no whitespace. */
  function TakeWord(s: string): (w: string)
    ensures |w| <= |s| && w == s[..|w|] && NoSpace(w)
    ensures |w| < |s| ==> IsSpace(s[|w|])
  {
    if s == [] || IsSpace(s[0]) then "" else [s[0]] + TakeWord(s[1..])
  }

  /** Python's `s.split()` with no argument: the maximal runs of non-whitespace. */
  function SplitWhitespace(s: string): (words: seq<string>)
    ensures forall i :: 0 <= i < |words| ==> words[i] != [] && NoSpace(words[i])
    decreases |s|
  {
    var t := LStrip(s);
    LStripSuffix(s);
    if t == [] then []
    else
      var w := TakeWord(t);
      [w] + SplitWhitespace(t[|w|..])
  }

  /** The word `TakeWord` finds is the whole of a whitespace-free prefix that
      is followed by whitespace or by nothing. */
  lemma {:induction false} TakeWordOf(w: string, rest: string)
    requires NoSpace(w) && (rest == [] || IsSpace(rest[0]))
    ensures TakeWord(w + rest) == w
  {
    if w == [] {
      assert w + rest == rest;
    } else {
      assert (w + rest)[1..] == w[1..] + rest;
      TakeWordOf(w[1..], rest);
    }
  }

  /** A leading word followed by whitespace or by nothing is the first word
      `split()` finds, and it resumes right after it. */
  lemma SplitWhitespaceFront(w: string, rest: string)
    requires w != [] && NoSpace(w) && (rest == [] || IsSpace(rest[0]))
    ensures SplitWhitespace(w + rest) == [w] + SplitWhitespace(rest)
  {
    var s := w + rest;
    assert s[0] == w[0];
    assert LStrip(s) == s;
    TakeWordOf(w, rest);
    assert s[|w|..] == rest;
  }

  /** A leading whitespace character does not change what `split()` finds. */
  lemma SplitWhitespaceSpace(c: char, rest: string)
    requires IsSpace(c)
    ensures SplitWhitespace([c] + rest) == SplitWhitespace(rest)
  {
    assert ([c] + rest)[1..] == rest;
    assert LStrip([c] + rest) == LStrip(rest);
  }

  /** `split()` undoes `" ".join(words)` for non-empty words without
      whitespace: it gives back exactly those words, in order. */
  lemma {:induction false} SplitWhitespaceJoin(words: seq<string>)
    requires |words| >= 1
    requires forall i :: 0 <= i < |words| ==> words[i] != [] && NoSpace(words[i])
    ensures SplitWhitespace(Join(words, ' ')) == words
  {
    var w := words[0];
    if |words| == 1 {
      SplitWhitespaceFront(w, []);
      assert w + [] == w;
    } else {
      var rest := Join(words[1..], ' ');
      assert Join(words, ' ') == w + ([' '] + rest);
      SplitWhitespaceFront(w, [' '] + rest);
      SplitWhitespaceSpace(' ', rest);
      SplitWhitespaceJoin(words[1..]);
    }
  }

  /** Python's `s.split(sep)` for a one-character separator: never empty, and
      an empty string gives `[""]`. */
  function SplitOn(s: string, sep: char): (parts: seq<string>)
    ensures |parts| >= 1
    ensures forall i :: 0 <= i < |parts| ==> sep !in parts[i]
  {
    if s == [] then [""]
    else
      var rest := SplitOn(s[1..], sep);
      if s[0] == sep then [""] + rest else [[s[0]] + rest[0]] + rest[1..]
  }

  /** `sep.join(parts)`. */
  function Join(parts: seq<string>, sep: char): string
    requires |parts| >= 1
  {
    if |parts| == 1 then parts[0] else parts[0] + [sep] + Join(parts[1..], sep)
  }

  /** Splitting loses nothing: joining the parts again restores the text. */
  lemma {:induction false} JoinSplitOn(s: string, sep: char)
    ensures Join(SplitOn(s, sep), sep) == s
  {
    if s != [] {
      var rest := SplitOn(s[1..], sep);
      JoinSplitOn(s[1..], sep);
      if s[0] == sep {
        assert SplitOn(s, sep) == [""] + rest;
        assert ([""] + rest)[1..] == rest;
      } else {
        var parts := SplitOn(s, sep);
        assert parts == [[s[0]] + rest[0]] + rest[1..];
        if |rest| > 1 {
          assert parts[1..] == rest[1..];
          assert Join(rest, sep) == rest[0] + [sep] + Join(rest[1..], sep);
        }
      }
    }
  }

  /** Splitting separator-free parts joined by the separator gives back the parts. */
  lemma {:induction false} SplitOnJoin(parts: seq<string>, sep: char)
    requires |parts| >= 1
    requires forall i :: 0 <= i < |parts| ==> sep !in parts[i]
    ensures SplitOn(Join(parts, sep), sep) == parts
  {
    if |parts| == 1 {
      SplitOnPlain(parts[0], sep);
    } else {
      SplitOnJoin(parts[1..], sep);
      SplitOnPrefix(parts[0], Join(parts[1..], sep), sep);
      assert [parts[0]] + parts[1..] == parts;
    }
  }

  lemma {:induction false} SplitOnPlain(w: string, sep: char)
    requires sep !in w
    ensures SplitOn(w, sep) == [w]
  {
    if w != [] {
      SplitOnPlain(w[1..], sep);
      assert [w[0]] + w[1..] == w;
    }
  }

  lemma {:induction false} SplitOnPrefix(w: string, tail: string, sep: char)
    requires sep !in w
    ensures SplitOn(w + [sep] + tail, sep) == [w] + SplitOn(tail, sep)
  {
    if w == [] {
      assert w + [sep] + tail == [sep] + tail;
      assert ([sep] + tail)[1..] == tail;
    } else {
      assert (w + [sep] + tail)[1..] == w[1..] + [sep] + tail;
      SplitOnPrefix(w[1..], tail, sep);
      assert [w[0]] + w[1..] == w;
    }
  }

  function DigitChar(d: nat): (c: char)
    requires d < 10
    ensures IsDigit(c)
  {
    ['0', '1', '2', '3', '4', '5', '6', '7', '8', '9'][d]
  }

  function DigitValue(c: char): (d: nat)
    requires IsDigit(c)
    ensures d < 10 && DigitChar(d) == c
  {
    (c as int - '0' as int) as nat
  }

  /** `str(n)` for a natural number: its decimal digits, most significant first. */
  function ShowNat(n: nat): (s: string)
    ensures s != [] && AllDigits(s)
    ensures (s[0] == '0') == (n == 0)       // no leading zero ...
    ensures n == 0 ==> s == "0"             // ... except in "0" itself
  {
    if n < 10 then [DigitChar(n)]
    else
      var init := ShowNat(n / 10);
      assert (init + [DigitChar(n % 10)])[0] == init[0];
      init + [DigitChar(n % 10)]
  }

  /** `str(n)` for any integer: a minus sign exactly for a negative number,
      then the canonical decimal digits of its magnitude. */
  function ShowInt(n: int): (s: string)
    ensures s != [] && NoSpace(s)
    ensures (s[0] == '-') == (n < 0)
    ensures var digits := if n < 0 then s[1..] else s;
            digits != [] && AllDigits(digits)
            && (digits[0] == '0') == (n == 0) && (n == 0 ==> s == "0")
  {
    if n < 0 then
      var digits := ShowNat(-n);
      assert (['-'] + digits)[1..] == digits;
      ['-'] + digits
    else ShowNat(n)
  }

  /** The format `f"{n:02}"` for a natural number: zero-padded to two characters. */
  function Pad2(n: nat): (s: string)
    ensures |s| >= 2 && forall i :: 0 <= i < |s| ==> IsDigit(s[i])
  {
    if n < 10 then "0" + ShowNat(n) else ShowNat(n)
  }

  predicate AllDigits(s: string) { forall i :: 0 <= i < |s| ==> IsDigit(s[i]) }

  /** The value of a run of decimal digits. */
  function DigitsValue(s: string): nat
    requires AllDigits(s)
  {
    if s == [] then 0 else DigitsValue(s[..|s| - 1]) * 10 + DigitValue(s[|s| - 1])
  }

  /** Python's `int(s)` for ASCII decimal text: surrounding whitespace is
      ignored and an optional sign is followed by at least one digit. Every
      other text is a `ValueError` here, including the two forms Python also
      accepts: digits grouped by underscores (`"1_0"`) and non-ASCII decimal
      digits. */
  function ParseInt(s: string): (r: Result<int>)
    ensures r.Err? ==> r.error == ValueError
  {
    var t := Strip(s);
    if t == [] then Err(ValueError)
    else if t[0] == '-' || t[0] == '+' then
      var digits := t[1..];
      if digits != [] && AllDigits(digits) then
        Ok(if t[0] == '-' then -(DigitsValue(digits) as int) else DigitsValue(digits))
      else Err(ValueError)
    else if AllDigits(t) then Ok(DigitsValue(t))
    else Err(ValueError)
  }

  lemma {:induction false} DigitsValueShowNat(n: nat)
    ensures DigitsValue(ShowNat(n)) == n
  {
    if n >= 10 {
      var s := ShowNat(n);
      assert s[..|s| - 1] == ShowNat(n / 10);
      DigitsValueShowNat(n / 10);
    } else {
      assert ShowNat(n)[..0] == [];
    }
  }

  /** Leading zeros do not change the value of a digit run. */
  lemma {:induction false} DigitsValueLeadingZero(s: string)
    requires AllDigits(s)
    ensures DigitsValue("0" + s) == DigitsValue(s)
  {
    if s == [] {
      assert ("0" + s)[..0] == [];
    } else {
      assert ("0" + s)[..|"0" + s| - 1] == "0" + s[..|s| - 1];
      DigitsValueLeadingZero(s[..|s| - 1]);
    }
  }

  /** Text without whitespace at its ends is unchanged by `strip`. */
  lemma StripUnframed(w: string)
    requires w != [] && !IsSpace(w[0]) && !IsSpace(w[|w| - 1])
    ensures Strip(w) == w
  {
    StripFramed("", w, "");
    assert "" + w + "" == w;
  }

  /** `int()` of an unsigned digit run is its value. */
  lemma ParseDigits(s: string)
    requires s != [] && AllDigits(s)
    ensures ParseInt(s) == Ok(DigitsValue(s))
  {
    StripUnframed(s);
  }

  /** `int()` of a minus sign followed by a digit run is the negated value. */
  lemma ParseNegative(digits: string)
    requires digits != [] && AllDigits(digits)
    ensures ParseInt(['-'] + digits) == Ok(-(DigitsValue(digits) as int))
  {
    var t := ['-'] + digits;
    assert !IsSpace(t[0]) && t[|t| - 1] == digits[|digits| - 1];
    StripUnframed(t);
    assert t[1..] == digits;
  }

  /** `int(str(n)) == n`. */
  lemma ParseShowInt(n: int)
    ensures ParseInt(ShowInt(n)) == Ok(n)
  {
    if n < 0 {
      ParseShowNegative(n);
    } else {
      ParseShowNat(n);
    }
  }

  lemma ParseShowNat(n: nat)
    ensures ParseInt(ShowNat(n)) == Ok(n)
  {
    DigitsValueShowNat(n);
    ParseDigits(ShowNat(n));
  }

  lemma ParseShowNegative(n: int)
    requires n < 0
    ensures ParseInt(['-'] + ShowNat(-n)) == Ok(n)
  {
    var m: nat := -n;
    ParseNegativeValue(ShowNat(m), m);
  }

  lemma ParseNegativeValue(digits: string, m: nat)
    requires digits == ShowNat(m)
    ensures ParseInt(['-'] + digits) == Ok(-(m as int))
  {
    DigitsValueShowNat(m);
    ParseNegative(digits);
  }

  /** `int(f"{n:02}") == n`, so the zero-padded labels of distinct numbers differ. */
  lemma ParsePad2(n: nat)
    ensures ParseInt(Pad2(n)) == Ok(n)
  {
    DigitsValueShowNat(n);
    if n < 10 {
      DigitsValueLeadingZero(ShowNat(n));
    }
    ParseDigits(Pad2(n));
  }

  lemma Pad2Injective(m: nat, n: nat)
    requires Pad2(m) == Pad2(n)
    ensures m == n
  {
    ParsePad2(m);
    ParsePad2(n);
  }
}
