/** The name of a run's image (pctpairprotons_numpy.py line 199,
    pctpairprotons.py line 116): `output.replace('.', f'{r:04d}.')`, every
    '.' of the output path preceded by the run number written in decimal
    and zero-padded to four characters. */
module Naming {

  predicate IsDigit(c: char) {
    '0' <= c <= '9'
  }

  predicate AllDigits(s: string) {
    forall k :: 0 <= k < |s| ==> IsDigit(s[k])
  }

  function DigitChar(d: nat): (c: char)
    requires d < 10
    ensures IsDigit(c) && c as int - '0' as int == d
  {
    ('0' as int + d) as char
  }

  /** The decimal digits of n, without leading zeros. */
  function Digits(n: nat): (s: string)
    ensures |s| > 0 && AllDigits(s)
    decreases n
  {
    if n < 10 then [DigitChar(n)] else Digits(n / 10) + [DigitChar(n % 10)]
  }

  function Zeros(k: nat): (z: string)
    ensures |z| == k && AllDigits(z)
  {
    seq(k, _ => '0')
  }

  /** s with zeros prepended up to the given width. */
  function ZeroPad(s: string, width: nat): string {
    if |s| >= width then s else Zeros(width - |s|) + s
  }

  /** Python's `f'{r:04d}'`: at least four characters, the sign counted
      among them, zeros between the sign and the digits. */
  function Format04(r: int): string {
    if r >= 0 then ZeroPad(Digits(r), 4) else "-" + ZeroPad(Digits(-r), 3)
  }

  /** `output.replace('.', f'{r:04d}.')`. */
  function OutputName(output: string, r: int): string
    decreases |output|
  {
    if output == [] then []
    else (if output[0] == '.' then Format04(r) + "." else [output[0]]) + OutputName(output[1..], r)
  }

  /** The number a string of digits denotes. */
  function Value(s: string): nat
    requires AllDigits(s)
    decreases |s|
  {
    if s == [] then 0 else Value(s[..|s| - 1]) * 10 + (s[|s| - 1] as int - '0' as int)
  }

  lemma {:induction false} ValueOfDigits(n: nat)
    ensures Value(Digits(n)) == n
    decreases n
  {
    if n >= 10 {
      ValueOfDigits(n / 10);
      var s := Digits(n);
      assert s[..|s| - 1] == Digits(n / 10);
    }
  }

  lemma {:induction false} ValueOfPadded(k: nat, s: string)
    requires AllDigits(s)
    ensures Value(Zeros(k) + s) == Value(s)
    decreases |s|
  {
    if s == [] {
      assert Zeros(k) + s == Zeros(k);
      ZerosValue(k);
    } else {
      var s' := s[..|s| - 1];
      ValueOfPadded(k, s');
      assert (Zeros(k) + s)[..|Zeros(k) + s| - 1] == Zeros(k) + s';
    }
  }

  lemma {:induction false} ZerosValue(k: nat)
    ensures Value(Zeros(k)) == 0
    decreases k
  {
    if k > 0 {
      ZerosValue(k - 1);
      assert Zeros(k)[..k - 1] == Zeros(k - 1);
    }
  }

  /** A formatted run number reads back as that number: the digits after
      an optional '-' denote its magnitude, and the sign is there exactly
      for negative runs. It is at least four characters long, the sign
      counted, and exactly four for runs -999 to 9999; a longer one is not
      padded, so its first digit is not a zero. */
  lemma Format04Reads(r: int)
    ensures |Format04(r)| >= 4
    ensures -999 <= r < 10000 ==> |Format04(r)| == 4
    ensures |Format04(r)| > 4 ==> Format04(r)[if r < 0 then 1 else 0] != '0'
    ensures r >= 0 ==> AllDigits(Format04(r)) && Value(Format04(r)) == r
    ensures r < 0 ==> Format04(r)[0] == '-' && AllDigits(Format04(r)[1..]) && Value(Format04(r)[1..]) == -r
  {
    var n: nat := if r >= 0 then r else -r;
    var width := if r >= 0 then 4 else 3;
    var d := Digits(n);
    ValueOfDigits(n);
    DigitsLength(n);
    if |d| < width {
      ValueOfPadded(width - |d|, d);
    } else if n > 0 {
      DigitsLeading(n);
    }
    if r < 0 {
      assert Format04(r)[1..] == ZeroPad(d, width);
    }
  }

  /** The decimal digits of a positive number do not start with a zero. */
  lemma {:induction false} DigitsLeading(n: nat)
    requires n > 0
    ensures Digits(n)[0] != '0'
    decreases n
  {
    if n >= 10 {
      DigitsLeading(n / 10);
    }
  }

  lemma {:induction false} DigitsLength(n: nat)
    ensures n < 10 ==> |Digits(n)| <= 1
    ensures n < 100 ==> |Digits(n)| <= 2
    ensures n < 1000 ==> |Digits(n)| <= 3
    ensures n < 10000 ==> |Digits(n)| <= 4
    decreases n
  {
    if n >= 10 {
      DigitsLength(n / 10);
    }
  }

  /** Different runs are formatted differently. */
  lemma Format04Injective(r1: int, r2: int)
    requires Format04(r1) == Format04(r2)
    ensures r1 == r2
  {
    Format04Reads(r1);
    Format04Reads(r2);
  }

  /** The text before the first '.' is determined. */
  lemma FirstDot(a: string, x: string, b: string, y: string)
    requires '.' !in a && '.' !in b
    requires a + "." + x == b + "." + y
    ensures a == b
  {
    DotAfter(a, x);
    DotAfter(b, y);
    if |a| == |b| {
      assert a == (a + "." + x)[..|a|] == (b + "." + y)[..|b|] == b;
    }
  }

  lemma DotAfter(a: string, x: string)
    ensures (a + "." + x)[|a|] == '.'
    ensures forall k :: 0 <= k < |a| ==> (a + "." + x)[k] == a[k]
  {
  }

  /** Runs never share a file name when the output path has a '.': each
      run writes its own image. */
  lemma {:induction false} OutputNameInjective(output: string, r1: int, r2: int)
    requires '.' in output
    requires OutputName(output, r1) == OutputName(output, r2)
    ensures r1 == r2
    decreases |output|
  {
    if output[0] == '.' {
      var f1, f2 := Format04(r1), Format04(r2);
      Format04Reads(r1);
      Format04Reads(r2);
      NoDotInFormat(r1);
      NoDotInFormat(r2);
      assert f1 + "." + OutputName(output[1..], r1) == f2 + "." + OutputName(output[1..], r2);
      FirstDot(f1, OutputName(output[1..], r1), f2, OutputName(output[1..], r2));
      Format04Injective(r1, r2);
    } else {
      assert '.' in output[1..] by {
        var k :| 0 <= k < |output| && output[k] == '.';
        assert output[1..][k - 1] == '.';
      }
      assert OutputName(output[1..], r1) == OutputName(output, r1)[1..];
      OutputNameInjective(output[1..], r1, r2);
    }
  }

  lemma NoDotInFormat(r: int)
    ensures '.' !in Format04(r)
  {
    Format04Reads(r);
    if r < 0 {
      var f := Format04(r);
      assert forall k :: 1 <= k < |f| ==> f[k] == f[1..][k - 1];
    }
  }

  /** With no '.' in the output path every run gets the path itself, so
      each image overwrites the previous one. */
  lemma {:induction false} OutputNameWithoutDot(output: string, r: int)
    requires '.' !in output
    ensures OutputName(output, r) == output
    decreases |output|
  {
    if output != [] {
      OutputNameWithoutDot(output[1..], r);
      assert output == [output[0]] + output[1..];
    }
  }

  /** Worked examples of the run number: zero-padded to four characters,
      the sign among them, and never cut to four. */
  lemma Format04Examples()
    ensures Format04(3) == "0003"
    ensures Format04(12) == "0012"
    ensures Format04(-5) == "-005"
    ensures Format04(12345) == "12345"
  {
    assert Digits(3) == "3";
    assert Zeros(3) == "000";
    assert Digits(5) == "5";
    assert Zeros(2) == "00";
    assert Digits(1) == "1";
    assert Digits(12) == "12";
    assert Digits(123) == "123";
    assert Digits(1234) == "1234";
    assert Digits(12345) == "12345";
  }

  /** The name is built piece by piece: the pieces of a path are renamed
      independently. */
  lemma {:induction false} OutputNameAppend(a: string, b: string, r: int)
    ensures OutputName(a + b, r) == OutputName(a, r) + OutputName(b, r)
    decreases |a|
  {
    if a != [] {
      OutputNameAppend(a[1..], b, r);
      assert (a + b)[1..] == a[1..] + b;
    } else {
      assert a + b == b;
    }
  }

  lemma OutputNameOfDot(r: int)
    ensures OutputName(".", r) == Format04(r) + "."
  {
    assert "."[1..] == [];
  }

  /** A dot-free stem followed by '.': the run number goes before the '.'. */
  lemma OutputNameStemDot(stem: string, r: int)
    requires '.' !in stem
    ensures OutputName(stem + ".", r) == stem + (Format04(r) + ".")
  {
    OutputNameAppend(stem, ".", r);
    OutputNameWithoutDot(stem, r);
    OutputNameOfDot(r);
  }

  /** A path with one '.': the run number goes between the stem and the
      '.', so "pairs.mha" gives "pairs0003.mha" for run 3. */
  lemma OutputNameOneDot(stem: string, ext: string, r: int)
    requires '.' !in stem && '.' !in ext
    ensures OutputName(stem + "." + ext, r) == stem + (Format04(r) + ".") + ext
  {
    OutputNameStemDot(stem, r);
    OutputNameAppend(stem + ".", ext, r);
    OutputNameWithoutDot(ext, r);
  }

  /** Every '.' receives the run number, not only the one before the
      extension: "a.b.mha" gives "a0012.b0012.mha" for run 12. */
  lemma OutputNameEveryDot(a: string, b: string, ext: string, r: int)
    requires '.' !in a && '.' !in b && '.' !in ext
    ensures OutputName(a + "." + (b + "." + ext), r) == a + (Format04(r) + ".") + (b + (Format04(r) + ".") + ext)
  {
    OutputNameStemDot(a, r);
    OutputNameOneDot(b, ext, r);
    OutputNameAppend(a + ".", b + "." + ext, r);
  }
}
