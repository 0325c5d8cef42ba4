/** Option and Result, and the handful of Python string operations the scripts
    rely on (slicing, str.split, str.replace, the first whitespace-separated
    word, int() and zero-padded decimal formatting), stated over seq<char>. */
module Common {

  datatype Option<+T> = None | Some(value: T)

  datatype Result<+T, +E> = Ok(value: T) | Err(error: E)

  function Min(a: int, b: int): int { if a <= b then a else b }

  function Max(a: int, b: int): int { if a <= b then b else a }

  // ---------------------------------------------------------------------------
  // Slicing

  /** Python's s[lo:hi] for non-negative bounds: both bounds are clamped to
      the length, and an empty string results when hi does not exceed lo. */
  function Slice(s: string, lo: nat, hi: nat): (r: string)
    ensures |r| == Max(0, Min(hi, |s|) - Min(lo, |s|))
    ensures forall i :: 0 <= i < |r| ==> r[i] == s[lo + i]
  {
    var a := Min(lo, |s|);
    var b := Min(hi, |s|);
    if a < b then s[a..b] else ""
  }

  /** Python's s[lo:] for a non-negative lo. */
  function SliceFrom(s: string, lo: nat): (r: string)
    ensures lo <= |s| ==> r == s[lo..]
    ensures lo > |s| ==> r == ""
  {
    if lo <= |s| then s[lo..] else ""
  }

  /** Python's s[:-k] for a positive k: everything but the last k characters. */
  function DropLast(s: string, k: nat): (r: string)
    requires k > 0
    ensures |s| >= k ==> r + s[|s| - k..] == s && |r| == |s| - k
    ensures |s| < k ==> r == ""
  {
    if |s| >= k then s[..|s| - k] else ""
  }

  // ---------------------------------------------------------------------------
  // str.replace for single characters

  /** s.replace(a, b) where a and b are one character each. */
  function Replace(s: string, a: char, b: char): (r: string)
    ensures |r| == |s|
    ensures forall i :: 0 <= i < |s| ==> r[i] == (if s[i] == a then b else s[i])
  {
    if s == [] then [] else [if s[0] == a then b else s[0]] + Replace(s[1..], a, b)
  }

  lemma ReplaceConcat(x: string, y: string, a: char, b: char)
    ensures Replace(x + y, a, b) == Replace(x, a, b) + Replace(y, a, b)
  {
    var l, r := Replace(x + y, a, b), Replace(x, a, b) + Replace(y, a, b);
    assert |l| == |r|;
    forall i | 0 <= i < |l| ensures l[i] == r[i] {
      if i < |x| { assert (x + y)[i] == x[i]; } else { assert (x + y)[i] == y[i - |x|]; }
    }
  }

  lemma ReplaceAbsent(s: string, a: char, b: char)
    requires a !in s
    ensures Replace(s, a, b) == s
  {
    var r := Replace(s, a, b);
    forall i | 0 <= i < |s| ensures r[i] == s[i] {
      assert s[i] != a;
    }
  }

  // ---------------------------------------------------------------------------
  // str.split(sep) and its inverse, sep.join(parts)

  /** Python's s.split(sep) for a one-character separator: never empty, and
      "".split(sep) is [""]. */
  function Split(s: string, sep: char): (r: seq<string>)
    ensures |r| >= 1
    decreases |s|
  {
    if s == [] then [""]
    else if s[0] == sep then [""] + Split(s[1..], sep)
    else
      var rest := Split(s[1..], sep);
      [[s[0]] + rest[0]] + rest[1..]
  }

  /** sep.join(parts) for a one-character separator. */
  function Join(parts: seq<string>, sep: char): string
    requires |parts| >= 1
    decreases |parts|
  {
    if |parts| == 1 then parts[0] else parts[0] + [sep] + Join(parts[1..], sep)
  }

  predicate SepFree(parts: seq<string>, sep: char)
  {
    forall i :: 0 <= i < |parts| ==> sep !in parts[i]
  }

  /** No piece that split produces contains the separator. */
  lemma {:induction false} SplitSepFree(s: string, sep: char)
    ensures SepFree(Split(s, sep), sep)
    decreases |s|
  {
    if s != [] {
      SplitSepFree(s[1..], sep);
      if s[0] != sep {
        var rest := Split(s[1..], sep);
        assert sep !in rest[0];
        assert sep !in [s[0]] + rest[0];
      }
    }
  }

  /** Splitting a separator-free string yields that one string. */
  lemma {:induction false} SplitNoSep(s: string, sep: char)
    requires sep !in s
    ensures Split(s, sep) == [s]
    decreases |s|
  {
    if s != [] {
      assert sep !in s[1..];
      SplitNoSep(s[1..], sep);
      assert [s[0]] + s[1..] == s;
    }
  }

  /** A separator-free head is split off as the first piece. */
  lemma {:induction false} SplitHead(a: string, sep: char, b: string)
    requires sep !in a
    ensures Split(a + [sep] + b, sep) == [a] + Split(b, sep)
    decreases |a|
  {
    if a == [] {
      assert a + [sep] + b == [sep] + b;
      assert ([sep] + b)[1..] == b;
    } else {
      assert (a + [sep] + b)[0] == a[0];
      assert (a + [sep] + b)[1..] == a[1..] + [sep] + b;
      assert sep !in a[1..];
      SplitHead(a[1..], sep, b);
      assert [a[0]] + a[1..] == a;
    }
  }

  /** Round trip: splitting a join of separator-free parts gives the parts back. */
  lemma {:induction false} SplitJoin(parts: seq<string>, sep: char)
    requires |parts| >= 1 && SepFree(parts, sep)
    ensures Split(Join(parts, sep), sep) == parts
    decreases |parts|
  {
    if |parts| == 1 {
      SplitNoSep(parts[0], sep);
    } else {
      SplitJoin(parts[1..], sep);
      SplitHead(parts[0], sep, Join(parts[1..], sep));
      assert [parts[0]] + parts[1..] == parts;
    }
  }

  /** Round trip the other way: joining the pieces of a split gives the string back. */
  lemma {:induction false} JoinSplit(s: string, sep: char)
    ensures Join(Split(s, sep), sep) == s
    decreases |s|
  {
    if s != [] {
      JoinSplit(s[1..], sep);
      var rest := Split(s[1..], sep);
      if s[0] == sep {
        assert Split(s, sep) == [""] + rest;
        assert ([""] + rest)[1..] == rest;
        assert [s[0]] + s[1..] == s;
      } else {
        var parts := Split(s, sep);
        assert parts == [[s[0]] + rest[0]] + rest[1..];
        if |rest| == 1 {
          assert Join(parts, sep) == [s[0]] + rest[0];
          assert [s[0]] + s[1..] == s;
        } else {
          assert parts[1..] == rest[1..];
          assert Join(rest, sep) == rest[0] + [sep] + Join(rest[1..], sep);
          assert Join(parts, sep) == [s[0]] + rest[0] + [sep] + Join(rest[1..], sep);
          assert [s[0]] + s[1..] == s;
        }
      }
    }
  }

  /** t occurs in s starting at index i. */
  predicate OccursAt(s: string, t: string, i: int)
  {
    0 <= i && i + |t| <= |s| && s[i..i + |t|] == t
  }

  /** t is a substring of s (Python's `t in s`). */
  predicate Contains(s: string, t: string)
  {
    exists i :: 0 <= i <= |s| && OccursAt(s, t, i)
  }

  /** Every part of a join occurs in the joined text, the first one at the start. */
  lemma {:induction false} JoinContains(parts: seq<string>, sep: char, k: nat)
    requires k < |parts|
    ensures Contains(Join(parts, sep), parts[k])
    ensures OccursAt(Join(parts, sep), parts[0], 0)
    decreases k
  {
    var s := Join(parts, sep);
    if |parts| == 1 {
      assert s[0..|parts[0]|] == parts[0];
    } else {
      var rest := Join(parts[1..], sep);
      assert s == parts[0] + [sep] + rest;
      assert s[0..|parts[0]|] == parts[0];
      if k > 0 {
        JoinContains(parts[1..], sep, k - 1);
        var i :| 0 <= i <= |rest| && OccursAt(rest, parts[k], i);
        var j := |parts[0]| + 1 + i;
        assert s[j..j + |parts[k]|] == rest[i..i + |parts[k]|];
        assert OccursAt(s, parts[k], j);
      }
    }
    assert OccursAt(s, parts[0], 0);
  }

  lemma Join3(a: string, b: string, c: string, sep: char)
    ensures Join([a, b, c], sep) == a + [sep] + b + [sep] + c
  {
    assert [a, b, c][1..] == [b, c];
    assert [b, c][1..] == [c];
    assert Join([b, c], sep) == b + [sep] + c;
    assert Join([a, b, c], sep) == a + [sep] + (b + [sep] + c);
  }

  lemma Join4(a: string, b: string, c: string, d: string, sep: char)
    ensures Join([a, b, c, d], sep) == a + [sep] + b + [sep] + c + [sep] + d
  {
    assert [a, b, c, d][1..] == [b, c, d];
    Join3(b, c, d, sep);
    assert Join([a, b, c, d], sep) == a + [sep] + (b + [sep] + c + [sep] + d);
  }

  // ---------------------------------------------------------------------------
  // str.split() with no argument, first word only

  /** The ASCII characters Python's str.split() and int() treat as
      whitespace: space, tab, newline, carriage return, vertical tab, form
      feed and the four separators 0x1c..0x1f. */
  predicate IsSpace(c: char)
  {
    c == ' ' || c == '\t' || c == '\n' || c == '\r' || c == 11 as char || c == 12 as char
    || 28 as char <= c <= 31 as char
  }

  predicate NoSpace(s: string)
  {
    forall i :: 0 <= i < |s| ==> !IsSpace(s[i])
  }

  function DropSpaces(s: string): (r: string)
    ensures |r| <= |s|
    ensures r != [] ==> !IsSpace(r[0])
  {
    if s != [] && IsSpace(s[0]) then DropSpaces(s[1..]) else s
  }

  function TakeWord(s: string): (r: string)
    ensures NoSpace(r)
    ensures |r| <= |s| && r == s[..|r|]
  {
    if s == [] || IsSpace(s[0]) then "" else [s[0]] + TakeWord(s[1..])
  }

  /** s.split()[0], or None where Python raises IndexError (s is blank). */
  function FirstWord(s: string): (r: Option<string>)
    ensures r.Some? ==> r.value != [] && NoSpace(r.value)
  {
    var t := DropSpaces(s);
    if t == [] then None
    else
      assert t[..1] == [t[0]];
      Some(TakeWord(t))
  }

  lemma {:induction false} TakeWordUpToSpace(a: string, c: char, b: string)
    requires NoSpace(a) && IsSpace(c)
    ensures TakeWord(a + [c] + b) == a
    decreases |a|
  {
    if a == [] {
      assert (a + [c] + b)[0] == c;
    } else {
      assert (a + [c] + b)[0] == a[0];
      assert (a + [c] + b)[1..] == a[1..] + [c] + b;
      TakeWordUpToSpace(a[1..], c, b);
      assert [a[0]] + a[1..] == a;
    }
  }

  /** The first word of "a b..." is a when a is a non-empty word. */
  lemma FirstWordOf(a: string, b: string)
    requires a != [] && NoSpace(a)
    ensures FirstWord(a + " " + b) == Some(a)
  {
    assert (a + " " + b)[0] == a[0];
    assert DropSpaces(a + " " + b) == a + " " + b;
    TakeWordUpToSpace(a, ' ', b);
  }

  // ---------------------------------------------------------------------------
  // Decimal digits: '%0Nd' formatting and int() parsing

  predicate IsDigit(c: char) { '0' <= c <= '9' }

  predicate AllDigits(s: string)
  {
    forall i :: 0 <= i < |s| ==> IsDigit(s[i])
  }

  function DigitChar(d: nat): (c: char)
    requires d < 10
    ensures IsDigit(c)
  {
    ('0' as int + d) as char
  }

  function DigitValue(c: char): nat
    requires IsDigit(c)
  {
    c as int - '0' as int
  }

  function Pow10(k: nat): (r: nat)
    ensures r >= 1
  {
    if k == 0 then 1 else 10 * Pow10(k - 1)
  }

  /** '%0*d' % (width, n) for an n that fits in width digits. */
  function Decimal(n: nat, width: nat): (r: string)
    requires n < Pow10(width)
    ensures |r| == width
  {
    if width == 0 then "" else Decimal(n / 10, width - 1) + [DigitChar(n % 10)]
  }

  /** A zero-padded decimal is made of digits only. */
  lemma {:induction false} DecimalDigits(n: nat, width: nat)
    requires n < Pow10(width)
    ensures AllDigits(Decimal(n, width))
  {
    if width > 0 {
      DecimalDigits(n / 10, width - 1);
    }
  }

  /** The value of a string of ASCII digits, most significant first. */
  function DigitsValue(s: string): nat
    requires AllDigits(s)
  {
    if s == [] then 0 else DigitsValue(s[..|s| - 1]) * 10 + DigitValue(s[|s| - 1])
  }

  /** Reading back a zero-padded decimal gives the number. */
  lemma {:induction false} DecimalValue(n: nat, width: nat)
    requires n < Pow10(width)
    ensures AllDigits(Decimal(n, width))
    ensures DigitsValue(Decimal(n, width)) == n
  {
    DecimalDigits(n, width);
    if width > 0 {
      var s, q := Decimal(n, width), n / 10;
      assert s[..|s| - 1] == Decimal(q, width - 1);
      assert DigitValue(s[|s| - 1]) == n % 10;
      DecimalValue(q, width - 1);
      assert DigitsValue(s) == q * 10 + n % 10;
    }
  }

  function StripSpaces(s: string): (r: string)
  {
    var t := DropSpaces(s);
    DropTrailingSpaces(t)
  }

  function DropTrailingSpaces(s: string): (r: string)
    ensures |r| <= |s| && r == s[..|r|]
    ensures r != [] ==> !IsSpace(r[|r| - 1])
  {
    if s != [] && IsSpace(s[|s| - 1]) then DropTrailingSpaces(s[..|s| - 1]) else s
  }

  /** int(s) for a str: surrounding whitespace is ignored, then an optional
      sign and at least one ASCII digit; None where Python raises ValueError. */
  function ParseInt(s: string): (r: Option<int>)
    ensures r.Some? && AllDigits(s) ==> r.value >= 0
  {
    var t := StripSpaces(s);
    if t == [] then None
    else if t[0] == '-' || t[0] == '+' then
      var body := t[1..];
      if body != [] && AllDigits(body) then
        var m: int := DigitsValue(body);
        var v: int := if t[0] == '-' then 0 - m else m;
        Some(v)
      else None
    else if AllDigits(t) then Some(DigitsValue(t))
    else None
  }

  lemma ParseIntDigits(s: string)
    requires s != [] && AllDigits(s)
    ensures ParseInt(s) == Some(DigitsValue(s))
  {
    assert DropSpaces(s) == s;
    assert DropTrailingSpaces(s) == s;
  }

  /** int() of a zero-padded decimal of width at least one gives the number. */
  lemma ParseDecimal(n: nat, width: nat)
    requires width >= 1 && n < Pow10(width)
    ensures ParseInt(Decimal(n, width)) == Some(n)
  {
    DecimalValue(n, width);
    ParseIntDigits(Decimal(n, width));
  }

  /** str(n) for a non-negative int: its decimal digits without leading zeros. */
  function NatText(n: nat): (r: string)
    ensures r != [] && AllDigits(r)
  {
    if n < 10 then [DigitChar(n)] else NatText(n / 10) + [DigitChar(n % 10)]
  }

  lemma {:induction false} NatTextValue(n: nat)
    ensures DigitsValue(NatText(n)) == n
  {
    if n >= 10 {
      var s := NatText(n);
      assert s[..|s| - 1] == NatText(n / 10);
      NatTextValue(n / 10);
    }
  }

  /** int(str(n)) == n. */
  lemma ParseNatText(n: nat)
    ensures ParseInt(NatText(n)) == Some(n)
  {
    ParseIntDigits(NatText(n));
    NatTextValue(n);
  }
}
