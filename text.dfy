/** The string operations the pipeline relies on, written as Python evaluates
    them: `str.split` with a one-character separator, `str.join`, `int()` on a
    digit run and `format(n, '0<w>d')`. */
module Text {
  import opened Wrappers

  // ---------------------------------------------------------------------------
  // Separators: str.split(c) and c.join(parts)
  // ---------------------------------------------------------------------------

  /** Index of the last occurrence of `c` in `s`, or -1 when there is none. */
  function LastIndexOf(s: string, c: char): (j: int)
    ensures -1 <= j < |s|
    ensures j >= 0 ==> s[j] == c
    ensures forall k :: j < k < |s| ==> s[k] != c
    decreases |s|
  {
    if |s| == 0 then -1
    else if s[|s| - 1] == c then |s| - 1
    else LastIndexOf(s[..|s| - 1], c)
  }

  /** `s.split(c)`, built from the last separator backwards. */
  function Split(s: string, c: char): (parts: seq<string>)
    ensures |parts| >= 1
    decreases |s|
  {
    var j := LastIndexOf(s, c);
    if j < 0 then [s] else Split(s[..j], c) + [s[j + 1..]]
  }

  /** `c.join(parts)`. */
  function Join(parts: seq<string>, c: char): string
    requires |parts| >= 1
    decreases |parts|
  {
    if |parts| == 1 then parts[0]
    else Join(parts[..|parts| - 1], c) + [c] + parts[|parts| - 1]
  }

  /** `s.split(c)[0]`. */
  function First(s: string, c: char): string {
    Split(s, c)[0]
  }

  /** `s.split(c)[-1]`. */
  function Last(s: string, c: char): string {
    var parts := Split(s, c);
    parts[|parts| - 1]
  }

  /** Everything before `Last(s, c)`: empty, or ending in the last `c`. */
  function Prefix(s: string, c: char): string {
    s[..LastIndexOf(s, c) + 1]
  }

  lemma LastIndexIs(s: string, c: char, j: int)
    requires 0 <= j < |s| && s[j] == c
    requires forall k :: j < k < |s| ==> s[k] != c
    ensures LastIndexOf(s, c) == j
  {
  }

  lemma NoSeparator(s: string, c: char)
    requires c !in s
    ensures LastIndexOf(s, c) == -1 && Split(s, c) == [s]
    ensures First(s, c) == s && Last(s, c) == s && Prefix(s, c) == ""
  {
  }

  /** The last part of the split is what follows the last separator. */
  lemma LastIsSuffix(s: string, c: char)
    ensures Last(s, c) == s[LastIndexOf(s, c) + 1..]
  {
    if LastIndexOf(s, c) < 0 {
      NoSeparatorFromIndex(s, c);
    }
  }

  lemma PrefixAndLast(s: string, c: char)
    ensures Prefix(s, c) + Last(s, c) == s
    ensures c !in Last(s, c)
  {
    LastIsSuffix(s, c);
    var j := LastIndexOf(s, c);
    var t := s[j + 1..];
    forall k | 0 <= k < |t| ensures t[k] != c {
      assert t[k] == s[j + 1 + k];
    }
    assert s[..j + 1] + s[j + 1..] == s;
  }

  /** The prefix ends at the last separator, so it has an empty last part. */
  lemma PrefixOfPrefix(s: string, c: char)
    ensures LastIndexOf(Prefix(s, c), c) == LastIndexOf(s, c)
    ensures Prefix(Prefix(s, c), c) == Prefix(s, c)
  {
    var j := LastIndexOf(s, c);
    var p := Prefix(s, c);
    if j >= 0 {
      LastIndexIs(p, c, j);
    }
  }

  /** Putting `x` after the prefix makes `x` the last part again. */
  lemma AppendToPrefix(s: string, x: string, c: char)
    requires c !in x
    ensures Last(Prefix(s, c) + x, c) == x
    ensures Prefix(Prefix(s, c) + x, c) == Prefix(s, c)
  {
    var p := Prefix(s, c);
    PrefixOfPrefix(s, c);
    SplitAppend(p, x, c);
    LastIsSuffix(p, c);
    assert Last(p, c) == "";
  }

  /** Whatever follows the last separator is the last part. */
  lemma LastAfterSeparator(x: string, y: string, c: char)
    requires c !in y
    ensures Last(x + [c] + y, c) == y
  {
    var t := x + [c];
    LastIndexIs(t, c, |x|);
    LastIsSuffix(t, c);
    assert Last(t, c) == "";
    SplitAppend(t, y, c);
  }

  /** Text free of `c` put in front changes neither whether `c` occurs nor
      what follows its last occurrence. */
  lemma PrependFree(h: string, t: string, c: char)
    requires c !in h
    ensures LastIndexOf(h + t, c) >= 0 <==> LastIndexOf(t, c) >= 0
    ensures LastIndexOf(t, c) >= 0 ==> Last(h + t, c) == Last(t, c)
  {
    if LastIndexOf(t, c) >= 0 {
      PrependFreeFound(h, t, c);
    } else {
      PrependFreeAbsent(h, t, c);
    }
  }

  lemma PrependFreeFound(h: string, t: string, c: char)
    requires LastIndexOf(t, c) >= 0
    ensures LastIndexOf(h + t, c) == |h| + LastIndexOf(t, c)
    ensures Last(h + t, c) == Last(t, c)
  {
    var s := h + t;
    var j := LastIndexOf(t, c);
    assert s[|h| + j] == t[j];
    forall k | |h| + j < k < |s| ensures s[k] != c {
      assert s[k] == t[k - |h|];
    }
    LastIndexIs(s, c, |h| + j);
    LastIsSuffix(s, c);
    LastIsSuffix(t, c);
    assert s[|h| + j + 1..] == t[j + 1..];
  }

  lemma PrependFreeAbsent(h: string, t: string, c: char)
    requires c !in h && LastIndexOf(t, c) < 0
    ensures LastIndexOf(h + t, c) == -1
  {
    var s := h + t;
    NoSeparatorFromIndex(t, c);
    forall k | 0 <= k < |s| ensures s[k] != c {
      if k < |h| {
        assert s[k] == h[k];
      } else {
        assert s[k] == t[k - |h|];
      }
    }
    NoSeparator(s, c);
  }

  lemma NoSeparatorFromIndex(s: string, c: char)
    requires LastIndexOf(s, c) == -1
    ensures c !in s
  {
    forall k | 0 <= k < |s| ensures s[k] != c {
    }
  }

  /** `c.join(s.split(c)) == s`. */
  lemma {:induction false} JoinSplit(s: string, c: char)
    ensures Join(Split(s, c), c) == s
    decreases |s|
  {
    var j := LastIndexOf(s, c);
    if j >= 0 {
      var init := Split(s[..j], c);
      var parts := init + [s[j + 1..]];
      assert parts[..|parts| - 1] == init;
      JoinSplit(s[..j], c);
      assert s[..j] + [c] + s[j + 1..] == s;
    }
  }

  /** Appending text free of `c` extends the last part and keeps the others. */
  lemma SplitAppend(s: string, y: string, c: char)
    requires c !in y
    ensures LastIndexOf(s + y, c) == LastIndexOf(s, c)
    ensures Last(s + y, c) == Last(s, c) + y
    ensures Prefix(s + y, c) == Prefix(s, c)
  {
    AppendIndex(s, y, c);
    AppendLast(s, y, c);
    var j := LastIndexOf(s, c);
    assert (s + y)[..j + 1] == s[..j + 1];
  }

  lemma AppendLast(s: string, y: string, c: char)
    requires c !in y
    requires LastIndexOf(s + y, c) == LastIndexOf(s, c)
    ensures Last(s + y, c) == Last(s, c) + y
  {
    var j := LastIndexOf(s, c);
    LastIsSuffix(s, c);
    LastIsSuffix(s + y, c);
    assert (s + y)[j + 1..] == s[j + 1..] + y;
  }

  lemma AppendIndex(s: string, y: string, c: char)
    requires c !in y
    ensures LastIndexOf(s + y, c) == LastIndexOf(s, c)
  {
    var j := LastIndexOf(s, c);
    var t := s + y;
    forall k | j < k < |t| ensures t[k] != c {
      if k >= |s| {
        assert t[k] == y[k - |s|];
      }
    }
    if j >= 0 {
      LastIndexIs(t, c, j);
    }
  }

  /** Replacing the last part of `s.split(c)` by `x` and joining back gives
      the prefix up to the last separator followed by `x`. */
  lemma ReplaceLast(s: string, x: string, c: char)
    ensures var parts := Split(s, c);
            Join(parts[..|parts| - 1] + [x], c) == Prefix(s, c) + x
  {
    if LastIndexOf(s, c) < 0 {
      ReplaceOnly(s, x, c);
    } else {
      ReplaceAfter(s, x, c);
    }
  }

  lemma ReplaceOnly(s: string, x: string, c: char)
    requires LastIndexOf(s, c) < 0
    ensures Split(s, c) == [s] && Prefix(s, c) + x == x
    ensures var parts := Split(s, c);
            Join(parts[..|parts| - 1] + [x], c) == Prefix(s, c) + x
  {
    var parts := Split(s, c);
    assert parts[..|parts| - 1] + [x] == [x];
  }

  lemma ReplaceAfter(s: string, x: string, c: char)
    requires LastIndexOf(s, c) >= 0
    ensures var j := LastIndexOf(s, c);
            && Split(s, c)[..|Split(s, c)| - 1] == Split(s[..j], c)
            && Prefix(s, c) == s[..j + 1]
    ensures var parts := Split(s, c);
            Join(parts[..|parts| - 1] + [x], c) == Prefix(s, c) + x
  {
    var j := LastIndexOf(s, c);
    var parts := Split(s, c);
    assert parts == Split(s[..j], c) + [s[j + 1..]];
    assert parts[..|parts| - 1] == Split(s[..j], c);
    ReplaceLastJoin(s, x, c, j);
  }

  /** Splitting the result of ReplaceLast again gives back the earlier parts
      and `x`, when `x` holds no separator. */
  lemma SplitReplaced(s: string, x: string, c: char)
    requires c !in x
    ensures var parts := Split(s, c);
            Split(Prefix(s, c) + x, c) == parts[..|parts| - 1] + [x]
  {
    if LastIndexOf(s, c) < 0 {
      SplitReplacedOnly(s, x, c);
    } else {
      SplitReplacedAfter(s, x, c);
    }
  }

  lemma SplitReplacedOnly(s: string, x: string, c: char)
    requires c !in x && LastIndexOf(s, c) < 0
    ensures var parts := Split(s, c);
            Split(Prefix(s, c) + x, c) == parts[..|parts| - 1] + [x]
  {
    ReplaceOnly(s, x, c);
    NoSeparator(x, c);
    assert Split(s, c)[..0] + [x] == [x];
  }

  lemma SplitReplacedAfter(s: string, x: string, c: char)
    requires c !in x && LastIndexOf(s, c) >= 0
    ensures var parts := Split(s, c);
            Split(Prefix(s, c) + x, c) == parts[..|parts| - 1] + [x]
  {
    ReplaceAfter(s, x, c);
    ReplaceLastSplit(s, x, c, LastIndexOf(s, c));
  }

  lemma ReplaceLastJoin(s: string, x: string, c: char, j: int)
    requires 0 <= j < |s| && s[j] == c
    ensures Join(Split(s[..j], c) + [x], c) == s[..j + 1] + x
  {
    var init := Split(s[..j], c);
    var ps := init + [x];
    assert ps[..|ps| - 1] == init;
    JoinSplit(s[..j], c);
    assert s[..j + 1] == s[..j] + [c];
  }

  lemma ReplaceLastSplit(s: string, x: string, c: char, j: int)
    requires c !in x && 0 <= j < |s| && s[j] == c
    ensures Split(s[..j + 1] + x, c) == Split(s[..j], c) + [x]
  {
    var t := s[..j + 1] + x;
    forall k | j < k < |t| ensures t[k] != c {
      assert t[k] == x[k - j - 1];
    }
    LastIndexIs(t, c, j);
    assert t[..j] == s[..j];
    assert t[j + 1..] == x;
  }

  /** `s.split(c)[0]` is the text before the first `c`. */
  lemma {:induction false} FirstIsStem(s: string, c: char)
    ensures var r := First(s, c);
            |r| <= |s| && r == s[..|r|] && c !in r && (|r| < |s| ==> s[|r|] == c)
    decreases |s|
  {
    var j := LastIndexOf(s, c);
    if j < 0 {
      NoSeparatorFromIndex(s, c);
    } else {
      FirstIsStem(s[..j], c);
      assert First(s, c) == First(s[..j], c);
    }
  }

  /** The text before the first `c` is the only prefix free of `c` that is
      followed by `c` or by nothing. */
  lemma FirstUnique(s: string, c: char, r: string)
    requires |r| <= |s| && r == s[..|r|] && c !in r && (|r| < |s| ==> s[|r|] == c)
    ensures First(s, c) == r
  {
    FirstIsStem(s, c);
    var f := First(s, c);
    forall k | 0 <= k < |r| ensures s[k] != c {
      assert s[k] == r[k];
    }
    forall k | 0 <= k < |f| ensures s[k] != c {
      assert s[k] == f[k];
    }
    assert |f| == |r|;
  }

  /** A prefix free of `c` passes through `split(c)[0]` unchanged. */
  lemma FirstAfter(p: string, y: string, c: char)
    requires c !in p
    ensures First(p + y, c) == p + First(y, c)
  {
    FirstIsStem(y, c);
    var fy := First(y, c);
    var s := p + y;
    var r := p + fy;
    assert s[..|r|] == p + y[..|fy|];
    forall k | 0 <= k < |r| ensures r[k] != c {
      if k < |p| {
        assert r[k] == p[k];
      } else {
        assert r[k] == fy[k - |p|];
      }
    }
    if |r| < |s| {
      assert s[|r|] == y[|fy|];
    }
    FirstUnique(s, c, r);
  }

  // ---------------------------------------------------------------------------
  // Digits: int(s) and format(n, '0<w>d')
  // ---------------------------------------------------------------------------

  predicate IsDigit(ch: char) {
    '0' <= ch <= '9'
  }

  predicate AllDigits(s: string) {
    forall i :: 0 <= i < |s| ==> IsDigit(s[i])
  }

  function DigitValue(ch: char): nat
    requires IsDigit(ch)
  {
    ch as int - '0' as int
  }

  function DigitChar(d: nat): (ch: char)
    requires d < 10
    ensures IsDigit(ch) && DigitValue(ch) == d
  {
    ('0' as int + d) as char
  }

  /** The number a run of ASCII digits denotes (leading zeros allowed). */
  function Value(s: string): nat
    requires AllDigits(s)
    decreases |s|
  {
    if |s| == 0 then 0 else 10 * Value(s[..|s| - 1]) + DigitValue(s[|s| - 1])
  }

  /** `str(n)` for a natural number: no leading zeros. */
  function Decimal(n: nat): string
    decreases n
  {
    if n < 10 then [DigitChar(n)] else Decimal(n / 10) + [DigitChar(n % 10)]
  }

  function Zeros(k: nat): (r: string)
    ensures |r| == k && forall i :: 0 <= i < k ==> r[i] == '0'
  {
    seq(k, _ => '0')
  }

  /** Left-pads with '0' up to `width` characters; never truncates. */
  function ZeroPad(s: string, width: int): (r: string)
    ensures |r| == if |s| >= width then |s| else width
  {
    if |s| >= width then s else Zeros(width - |s|) + s
  }

  /** Python's `format(v, '0' + str(width) + 'd')`: the sign counts towards
      the width and the zeros go between the sign and the digits. */
  function FormatInt(v: int, width: int): string {
    if v >= 0 then ZeroPad(Decimal(v), width) else "-" + ZeroPad(Decimal(-v), width - 1)
  }

  /** Python's `int(s)` on ASCII text: an optional sign and a non-empty digit
      run; `None` stands for the `ValueError` it raises otherwise. */
  function ParseInt(s: string): Option<int> {
    if |s| > 0 && AllDigits(s) then Some(Value(s))
    else if |s| > 1 && (s[0] == '-' || s[0] == '+') && AllDigits(s[1..]) then
      var n: int := Value(s[1..]);
      Some(if s[0] == '-' then -n else n)
    else None
  }

  function Pow10(k: nat): nat {
    if k == 0 then 1 else 10 * Pow10(k - 1)
  }

  lemma {:induction false} DecimalDigits(n: nat)
    ensures AllDigits(Decimal(n)) && |Decimal(n)| >= 1 && Value(Decimal(n)) == n
    decreases n
  {
    if n >= 10 {
      DecimalDigits(n / 10);
      var r := Decimal(n);
      assert r[..|r| - 1] == Decimal(n / 10);
    }
  }

  lemma {:induction false} ZerosThen(k: nat, t: string)
    requires AllDigits(t)
    ensures AllDigits(Zeros(k) + t) && Value(Zeros(k) + t) == Value(t)
    decreases |t|
  {
    var s := Zeros(k) + t;
    if |t| == 0 {
      assert s == Zeros(k);
      ZerosValue(k);
    } else {
      ZerosThen(k, t[..|t| - 1]);
      assert s[..|s| - 1] == Zeros(k) + t[..|t| - 1];
    }
  }

  lemma {:induction false} ZerosValue(k: nat)
    ensures AllDigits(Zeros(k)) && Value(Zeros(k)) == 0
  {
    if k > 0 {
      ZerosValue(k - 1);
      assert Zeros(k)[..k - 1] == Zeros(k - 1);
    }
  }

  /** The padded decimal of `n` is a digit run worth `n`. */
  lemma PaddedValue(n: nat, width: int)
    ensures var r := ZeroPad(Decimal(n), width);
            |r| >= 1 && AllDigits(r) && Value(r) == n
  {
    DecimalDigits(n);
    if |Decimal(n)| < width {
      ZerosThen(width - |Decimal(n)|, Decimal(n));
    }
  }

  /** `int(format(v, '0<w>d')) == v` for every integer and every width. */
  lemma ParseFormat(v: int, width: int)
    ensures ParseInt(FormatInt(v, width)) == Some(v)
  {
    if v >= 0 {
      PaddedValue(v, width);
    } else {
      ParseNegative(v, width);
    }
  }

  lemma ParseNegative(v: int, width: int)
    requires v < 0
    ensures ParseInt(FormatInt(v, width)) == Some(v)
  {
    var p := ZeroPad(Decimal(-v), width - 1);
    assert |p| >= 1 && AllDigits(p) && Value(p) == -v by {
      PaddedValue(-v, width - 1);
    }
    var r := FormatInt(v, width);
    assert r == "-" + p;
    assert r[1..] == p && r[0] == '-';
    assert !IsDigit(r[0]);
  }

  /** Formatted integers are made of digits and '-' only. */
  lemma FormatChars(v: int, width: int, c: char)
    requires c != '-' && !IsDigit(c)
    ensures c !in FormatInt(v, width)
  {
    var r := FormatInt(v, width);
    if v >= 0 {
      PaddedValue(v, width);
    } else {
      PaddedValue(-v, width - 1);
      assert r[1..] == ZeroPad(Decimal(-v), width - 1);
    }
    forall i | 0 <= i < |r| ensures r[i] != c {
      if v < 0 && i > 0 {
        assert r[i] == r[1..][i - 1];
      }
    }
  }

  /** A parsable integer contains neither a '.' nor a '_' nor a '/'. */
  lemma ParsedChars(s: string, c: char)
    requires ParseInt(s).Some?
    requires c != '-' && c != '+' && !IsDigit(c)
    ensures c !in s
  {
    forall i | 0 <= i < |s| ensures s[i] != c {
      if !AllDigits(s) && i > 0 {
        assert s[1..][i - 1] == s[i];
      }
    }
  }

  /** A number below 10^w has at most w decimal digits. */
  lemma {:induction false} DecimalFits(n: nat, width: nat)
    requires width >= 1 && n < Pow10(width)
    ensures |Decimal(n)| <= width
    decreases n
  {
    if n >= 10 {
      assert Pow10(1) == 10;
      assert width >= 2;
      DecimalFits(n / 10, width - 1);
    }
  }

  /** A number of at least 10^w has more than w decimal digits. */
  lemma {:induction false} DecimalOutgrows(n: nat, width: nat)
    requires n >= Pow10(width)
    ensures |Decimal(n)| > width
    decreases width
  {
    if width > 0 {
      DecimalOutgrows(n / 10, width - 1);
    }
  }

  lemma {:induction false} ValueBound(s: string)
    requires AllDigits(s)
    ensures Value(s) < Pow10(|s|)
    decreases |s|
  {
    if |s| > 0 {
      ValueBound(s[..|s| - 1]);
    }
  }

  lemma {:induction false} ZeroValueIsZeros(s: string)
    requires AllDigits(s) && Value(s) == 0
    ensures s == Zeros(|s|)
    decreases |s|
  {
    if |s| > 0 {
      ZeroValueIsZeros(s[..|s| - 1]);
      assert s == s[..|s| - 1] + [s[|s| - 1]];
    }
  }

  /** Every digit run is the zero-padded decimal of its own value at its own
      width: formatting what `int()` read gives the text back. */
  lemma {:induction false} Canonical(s: string)
    requires |s| >= 1 && AllDigits(s)
    ensures ZeroPad(Decimal(Value(s)), |s|) == s
    decreases |s|
  {
    var init := s[..|s| - 1];
    var d := DigitValue(s[|s| - 1]);
    var v := Value(s);
    assert s == init + [s[|s| - 1]];
    assert DigitChar(d) == s[|s| - 1];
    if Value(init) == 0 {
      ZeroValueIsZeros(init);
      assert v == d;
    } else {
      Canonical(init);
      var x := Decimal(Value(init));
      assert v / 10 == Value(init) && v % 10 == d;
      assert Decimal(v) == x + [DigitChar(d)];
      assert |x| <= |init|;
      if |x| < |init| {
        assert ZeroPad(x + [DigitChar(d)], |s|) == Zeros(|init| - |x|) + x + [DigitChar(d)];
      }
    }
  }

  // ---------------------------------------------------------------------------
  // Substring test
  // ---------------------------------------------------------------------------

  /** `t` occurs in `s` starting at index `i`. */
  predicate OccursAt(s: string, t: string, i: int) {
    0 <= i && i + |t| <= |s| && s[i..i + |t|] == t
  }

  /** Python's `t in s` on strings: `t` occurs somewhere in `s`. */
  function HasInfix(s: string, t: string): (b: bool)
    ensures b <==> exists i :: OccursAt(s, t, i)
    decreases |s|
  {
    if |s| < |t| then false
    else if s[..|t|] == t then
      assert OccursAt(s, t, 0);
      true
    else
      var r := HasInfix(s[1..], t);
      assert r ==> exists i :: OccursAt(s, t, i) by {
        if r {
          var i :| OccursAt(s[1..], t, i);
          assert s[1..][i..i + |t|] == s[i + 1..i + 1 + |t|];
          assert OccursAt(s, t, i + 1);
        }
      }
      assert (exists i :: OccursAt(s, t, i)) ==> r by {
        forall i | OccursAt(s, t, i) ensures r {
          assert i != 0;
          assert s[1..][i - 1..i - 1 + |t|] == s[i..i + |t|];
          assert OccursAt(s[1..], t, i - 1);
        }
      }
      r
  }
}
