/** Small value types and the JavaScript string and number operations that the
    storefront's code leans on: String.prototype.trim, split on one character,
    Array.prototype.join, Number-to-string conversion and parseInt with radix 10. */
module Common {

  datatype Option<T> = None | Some(value: T)

  datatype Result<T, E> = Ok(value: T) | Err(error: E)

  /** The characters JavaScript's `trim` removes and its regular-expression
      class `\s` matches: WhiteSpace and LineTerminator of ECMAScript. */
  predicate IsJsSpace(c: char) {
    c == '\t' || c == '\n' || c == '\U{000B}' || c == '\U{000C}' || c == '\r' || c == ' '
    || c == '\U{00A0}' || c == '\U{1680}' || ('\U{2000}' <= c <= '\U{200A}')
    || c == '\U{2028}' || c == '\U{2029}' || c == '\U{202F}' || c == '\U{205F}'
    || c == '\U{3000}' || c == '\U{FEFF}'
  }

  predicate IsAsciiDigit(c: char) { '0' <= c <= '9' }

  predicate AllDigits(s: string) { forall i :: 0 <= i < |s| ==> IsAsciiDigit(s[i]) }

  /** No leading and no trailing JavaScript whitespace. */
  predicate NoOuterSpace(s: string) {
    |s| == 0 || (!IsJsSpace(s[0]) && !IsJsSpace(s[|s| - 1]))
  }

  function TrimStart(s: string): (r: string)
    ensures |r| <= |s| && r == s[|s| - |r|..]
    ensures |r| == 0 || !IsJsSpace(r[0])
    ensures forall i :: 0 <= i < |s| - |r| ==> IsJsSpace(s[i])
  {
    if |s| > 0 && IsJsSpace(s[0]) then TrimStart(s[1..]) else s
  }

  function TrimEnd(s: string): (r: string)
    ensures |r| <= |s| && r == s[..|r|]
    ensures |r| == 0 || !IsJsSpace(r[|r| - 1])
    ensures forall i :: |r| <= i < |s| ==> IsJsSpace(s[i])
  {
    if |s| > 0 && IsJsSpace(s[|s| - 1]) then TrimEnd(s[..|s| - 1]) else s
  }

  /** String.prototype.trim. */
  function Trim(s: string): (r: string)
    ensures NoOuterSpace(r)
  {
    TrimEnd(TrimStart(s))
  }

  lemma TrimStartNoop(s: string)
    requires NoOuterSpace(s)
    ensures TrimStart(s) == s
  {
  }

  lemma TrimEndNoop(s: string)
    requires NoOuterSpace(s)
    ensures TrimEnd(s) == s
  {
  }

  /** Trimming a string without outer whitespace, after any number of leading
      whitespace characters have been added, gives the string back. */
  lemma {:induction false} TrimPadded(pad: string, s: string)
    requires forall i :: 0 <= i < |pad| ==> IsJsSpace(pad[i])
    requires NoOuterSpace(s)
    ensures Trim(pad + s) == s
  {
    if |pad| == 0 {
      assert pad + s == s;
      TrimStartNoop(s);
      TrimEndNoop(s);
    } else {
      assert (pad + s)[1..] == pad[1..] + s;
      TrimPadded(pad[1..], s);
    }
  }

  /** `s.split(sep)` for a one-character separator: the pieces between the
      separators, never an empty list ("".split(",") is [""]). */
  function Split(s: string, sep: char): (r: seq<string>)
    ensures |r| >= 1
    ensures forall k :: 0 <= k < |r| ==> sep !in r[k]
  {
    if |s| == 0 then [""]
    else
      var rest := Split(s[1..], sep);
      if s[0] == sep then [""] + rest
      else [[s[0]] + rest[0]] + rest[1..]
  }

  function JoinWith(xs: seq<string>, sep: string): (r: string)
  {
    if |xs| == 0 then ""
    else if |xs| == 1 then xs[0]
    else xs[0] + sep + JoinWith(xs[1..], sep)
  }

  /** Splitting `x + [sep] + rest` puts `x` in front of the pieces of `rest`. */
  lemma {:induction false} SplitAfterPiece(x: string, rest: string, sep: char)
    requires sep !in x
    ensures Split(x + [sep] + rest, sep) == [x] + Split(rest, sep)
  {
    if |x| == 0 {
      assert x + [sep] + rest == [sep] + rest;
      assert ([sep] + rest)[1..] == rest;
    } else {
      var s := x + [sep] + rest;
      assert s[0] == x[0] && s[1..] == x[1..] + [sep] + rest;
      SplitAfterPiece(x[1..], rest, sep);
      assert [x[0]] + x[1..] == x;
    }
  }

  lemma {:induction false} SplitNoSep(x: string, sep: char)
    requires sep !in x
    ensures Split(x, sep) == [x]
  {
    if |x| > 0 {
      SplitNoSep(x[1..], sep);
      assert [x[0]] + x[1..] == x;
    }
  }

  /** Joining with `sep + tail` and splitting on `sep` returns the pieces:
      piece k is xs[k], after the tail when k > 0. */
  lemma {:induction false} SplitJoinPieces(xs: seq<string>, sep: char, tail: string)
    requires |xs| >= 1
    requires forall k :: 0 <= k < |xs| ==> sep !in xs[k]
    requires sep !in tail
    ensures var r := Split(JoinWith(xs, [sep] + tail), sep);
      |r| == |xs| && forall k :: 0 <= k < |xs| ==> r[k] == (if k == 0 then "" else tail) + xs[k]
  {
    var r := Split(JoinWith(xs, [sep] + tail), sep);
    assert "" + xs[0] == xs[0];
    if |xs| == 1 {
      SplitNoSep(xs[0], sep);
    } else {
      var ys := xs[1..];
      var rest := JoinWith(ys, [sep] + tail);
      assert JoinWith(xs, [sep] + tail) == xs[0] + [sep] + (tail + rest);
      SplitAfterPiece(xs[0], tail + rest, sep);
      assert forall k :: 0 <= k < |ys| ==> ys[k] == xs[k + 1];
      SplitJoinPieces(ys, sep, tail);
      var pieces := Split(rest, sep);
      SplitPrefix(tail, rest, sep);
      assert r == [xs[0]] + ([tail + pieces[0]] + pieces[1..]);
      assert xs == [xs[0]] + ys;
      ConsPieces(xs[0], tail, pieces, ys);
    }
  }

  /** One more piece in front of pieces that already have the shape. */
  lemma ConsPieces(x: string, tail: string, pieces: seq<string>, ys: seq<string>)
    requires |pieces| == |ys| >= 1
    requires forall k :: 0 <= k < |ys| ==> pieces[k] == (if k == 0 then "" else tail) + ys[k]
    ensures var r := [x] + ([tail + pieces[0]] + pieces[1..]);
      |r| == |ys| + 1 && forall k :: 0 <= k < |r| ==> r[k] == (if k == 0 then "" else tail) + ([x] + ys)[k]
  {
    var r := [x] + ([tail + pieces[0]] + pieces[1..]);
    var xs := [x] + ys;
    assert "" + x == x;
    assert pieces[0] == "" + ys[0] == ys[0];
    forall k | 0 <= k < |r| ensures r[k] == (if k == 0 then "" else tail) + xs[k] {
      if k >= 2 {
        assert r[k] == pieces[k - 1] && xs[k] == ys[k - 1];
      }
    }
  }

  /** A prefix free of the separator glues onto the first piece. */
  lemma {:induction false} SplitPrefix(pre: string, s: string, sep: char)
    requires sep !in pre
    ensures Split(pre + s, sep) == [pre + Split(s, sep)[0]] + Split(s, sep)[1..]
  {
    if |pre| > 0 {
      SplitPrefix(pre[1..], s, sep);
      assert (pre + s)[1..] == pre[1..] + s;
      assert [pre[0]] + (pre[1..] + Split(s, sep)[0]) == pre + Split(s, sep)[0];
    } else {
      assert pre + s == s;
      var r := Split(s, sep);
      assert pre + r[0] == r[0];
      assert r == [r[0]] + r[1..];
    }
  }

  // ---- numbers ----

  function DigitChar(d: int): (c: char)
    requires 0 <= d < 10
    ensures IsAsciiDigit(c) && c as int - '0' as int == d
  {
    (d + '0' as int) as char
  }

  /** The decimal digits of a natural number, as Number.prototype.toString
      writes them. */
  function NatToDecimal(n: nat): (r: string)
    ensures |r| >= 1 && AllDigits(r)
  {
    if n < 10 then [DigitChar(n)] else NatToDecimal(n / 10) + [DigitChar(n % 10)]
  }

  /** String(n) for an integer-valued Number. */
  function IntToDecimal(n: int): (r: string)
    ensures |r| >= 1
    ensures n >= 0 ==> AllDigits(r)
    ensures n < 0 ==> r[0] == '-' && AllDigits(r[1..]) && |r| >= 2
  {
    if n < 0 then "-" + NatToDecimal(-n) else NatToDecimal(n)
  }

  /** The value of a string of decimal digits, most significant first. */
  function DigitsValue(s: string): (v: nat)
    requires AllDigits(s)
  {
    if |s| == 0 then 0 else DigitsValue(s[..|s| - 1]) * 10 + (s[|s| - 1] as int - '0' as int)
  }

  lemma {:induction false} DecimalValue(n: nat)
    ensures DigitsValue(NatToDecimal(n)) == n
  {
    if n >= 10 {
      var s := NatToDecimal(n);
      assert s[..|s| - 1] == NatToDecimal(n / 10);
      DecimalValue(n / 10);
    }
  }

  /** The longest prefix of decimal digits. */
  function DigitPrefix(s: string): (r: string)
    ensures |r| <= |s| && r == s[..|r|] && AllDigits(r)
    ensures |r| < |s| ==> !IsAsciiDigit(s[|r|])
    ensures AllDigits(s) ==> r == s
  {
    if |s| > 0 && IsAsciiDigit(s[0]) then [s[0]] + DigitPrefix(s[1..]) else []
  }

  /** parseInt(s, 10): leading whitespace skipped, an optional sign, then the
      longest run of decimal digits; None stands for NaN (no digit at all). */
  function ParseIntJs(s: string): Option<int>
  {
    var t := TrimStart(s);
    var negative := |t| > 0 && t[0] == '-';
    var body := if |t| > 0 && (t[0] == '-' || t[0] == '+') then t[1..] else t;
    var d := DigitPrefix(body);
    if |d| == 0 then None
    else if negative then Some(-(DigitsValue(d) as int))
    else Some(DigitsValue(d))
  }

  /** A string field of a request body or form, None when it is absent or
      null: JavaScript treats it as false when missing or empty. */
  predicate FalsyText(v: Option<string>) { v.None? || v.value == "" }

  /** `x || 0` for a parsed integer: NaN (and 0) become 0. */
  function OrZero(x: Option<int>): int {
    match x
    case None => 0
    case Some(n) => n
  }

  lemma NotSpace(c: char)
    requires IsAsciiDigit(c) || c == '-'
    ensures !IsJsSpace(c)
  {
  }

  /** parseInt reads back what String(n) wrote, for every integer n. */
  lemma ParseIntOfDecimal(n: int)
    ensures ParseIntJs(IntToDecimal(n)) == Some(n)
  {
    if n < 0 {
      ParseIntOfNegative(n);
    } else {
      ParseIntOfNat(n);
    }
  }

  lemma ParseIntOfNat(n: int)
    requires n >= 0
    ensures ParseIntJs(IntToDecimal(n)) == Some(n)
  {
    var d := IntToDecimal(n);
    assert d == NatToDecimal(n);
    NotSpace(d[0]);
    assert TrimStart(d) == d;
    assert DigitPrefix(d) == d;
    DecimalValue(n);
  }

  lemma ParseIntOfNegative(n: int)
    requires n < 0
    ensures ParseIntJs(IntToDecimal(n)) == Some(n)
  {
    ParseIntOfMinus(-n);
    assert IntToDecimal(n) == "-" + NatToDecimal(-n);
  }

  lemma ParseIntOfMinus(m: nat)
    requires m > 0
    ensures ParseIntJs("-" + NatToDecimal(m)) == Some(-(m as int))
  {
    var d := NatToDecimal(m);
    var s := "-" + d;
    NotSpace(s[0]);
    assert TrimStart(s) == s;
    assert s[1..] == d;
    assert DigitPrefix(d) == d;
    DecimalValue(m);
  }

  // ---- sequences ----

  function Filter<T(!new)>(s: seq<T>, p: T -> bool): (r: seq<T>)
    ensures |r| <= |s|
    ensures forall k :: 0 <= k < |r| ==> p(r[k])
  {
    if |s| == 0 then [] else (if p(s[0]) then [s[0]] else []) + Filter(s[1..], p)
  }

  /** Filter keeps exactly the elements that satisfy the predicate. */
  lemma {:induction false} FilterMembers<T(!new)>(s: seq<T>, p: T -> bool)
    ensures forall x :: x in Filter(s, p) <==> x in s && p(x)
  {
    if |s| > 0 {
      FilterMembers(s[1..], p);
      assert s == [s[0]] + s[1..];
    }
  }

  lemma {:induction false} FilterConcat<T(!new)>(a: seq<T>, b: seq<T>, p: T -> bool)
    ensures Filter(a + b, p) == Filter(a, p) + Filter(b, p)
  {
    if |a| == 0 {
      assert a + b == b;
    } else {
      assert (a + b)[0] == a[0] && (a + b)[1..] == a[1..] + b;
      FilterConcat(a[1..], b, p);
    }
  }

  /** The positions of the elements Filter keeps, increasing. */
  function FilterIndices<T(!new)>(s: seq<T>, p: T -> bool): (r: seq<nat>)
    ensures forall k :: 0 <= k < |r| ==> r[k] < |s|
  {
    if |s| == 0 then []
    else
      var rest := FilterIndices(s[1..], p);
      (if p(s[0]) then [0] else []) + seq(|rest|, k requires 0 <= k < |rest| => rest[k] + 1)
  }

  /** Filter keeps a subsequence: each kept element sits at an increasing
      position of the input. */
  lemma {:induction false} FilterSubsequence<T(!new)>(s: seq<T>, p: T -> bool)
    ensures var idx := FilterIndices(s, p);
      |idx| == |Filter(s, p)|
      && (forall k :: 0 <= k < |idx| ==> Filter(s, p)[k] == s[idx[k]])
      && (forall i, j :: 0 <= i < j < |idx| ==> idx[i] < idx[j])
  {
    if |s| > 0 { FilterSubsequence(s[1..], p); }
  }

  lemma AppendAssoc<T>(a: seq<T>, b: seq<T>, c: seq<T>)
    ensures a + b + c == a + (b + c)
  {
  }

  function Min(a: int, b: int): int { if a <= b then a else b }
}
