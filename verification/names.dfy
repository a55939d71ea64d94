/**
 * The names of the companion files of a 0x108 model. Both are derived from the
 * model's file name by dropping its last three characters (".m2"): the view
 * data lives in "<stem>00.skin", and the keyframes of an animation sequence
 * that is not stored inline live in "<stem><id:%04d>-<sub:%02d>.anim".
 */
module CompanionNames {
  /** substr(0, length() - 3): the name without its last three characters. A shorter name is kept whole (the unsigned length wraps). */
  function Stem(name: string): (r: string)
    ensures |name| >= 3 ==> r + name[|name| - 3..] == name
    ensures |name| < 3 ==> r == name
  {
    if |name| >= 3 then name[..|name| - 3] else name
  }

  /** The skin file name: the stem followed by "00.skin". */
  function SkinName(meshName: string): (r: string)
    ensures |r| == |Stem(meshName)| + 7
    ensures r[..|Stem(meshName)|] == Stem(meshName) && r[|Stem(meshName)|..] == "00.skin"
  {
    Stem(meshName) + "00.skin"
  }

  /** A model named "<stem>.m2" has its view data in "<stem>00.skin". */
  lemma SkinNameOfM2(stem: string)
    ensures SkinName(stem + ".m2") == stem + "00.skin"
  {
    assert Stem(stem + ".m2") == stem;
  }

  predicate IsDigit(c: char)
  {
    '0' <= c <= '9'
  }

  function DigitChar(d: nat): (c: char)
    requires d < 10
    ensures IsDigit(c) && (c as int) - ('0' as int) == d
  {
    (('0' as int) + d) as char
  }

  /** %d of a non-negative number: its decimal digits, without leading zeros. */
  function Decimal(n: nat): (r: string)
    ensures 1 <= |r| && forall k :: 0 <= k < |r| ==> IsDigit(r[k])
    ensures n < 10 <==> |r| == 1
    ensures n < 100 ==> |r| <= 2
    ensures n < 10000 ==> |r| <= 4
    ensures n >= 100 ==> |r| >= 3
    ensures n >= 1000 ==> |r| >= 4
    ensures n >= 10000 ==> |r| >= 5
    decreases n
  {
    if n < 10 then [DigitChar(n)] else Decimal(n / 10) + [DigitChar(n % 10)]
  }

  /** %0<width>d: the decimal digits, padded on the left with zeros to at least `width` characters. */
  function ZeroPad(n: nat, width: nat): (r: string)
    ensures |r| == if |Decimal(n)| < width then width else |Decimal(n)|
    ensures forall k :: 0 <= k < |r| ==> IsDigit(r[k])
  {
    var d := Decimal(n);
    if |d| < width then seq(width - |d|, _ => '0') + d else d
  }

  /** The value of a string of decimal digits. */
  function ParseDecimal(s: string): (n: nat)
    requires forall k :: 0 <= k < |s| ==> IsDigit(s[k])
    decreases |s|
  {
    if s == [] then 0
    else 10 * ParseDecimal(s[..|s| - 1]) + DigitValue(s[|s| - 1])
  }

  function DigitValue(c: char): (d: nat)
    requires IsDigit(c)
    ensures d < 10 && DigitChar(d) == c
  {
    (c as int) - ('0' as int)
  }

  /** Reading the digits of n back gives n. */
  lemma {:induction false} DecimalRoundTrip(n: nat)
    ensures ParseDecimal(Decimal(n)) == n
    decreases n
  {
    if n >= 10 {
      var d := Decimal(n);
      assert d[..|d| - 1] == Decimal(n / 10);
      DecimalRoundTrip(n / 10);
    }
  }

  /** Leading zeros do not change the value. */
  lemma {:induction false} LeadingZeros(z: nat, s: string)
    requires forall k :: 0 <= k < |s| ==> IsDigit(s[k])
    ensures ParseDecimal(seq(z, _ => '0') + s) == ParseDecimal(s)
    decreases |s|
  {
    var zs: string := seq(z, _ => '0');
    if s == [] {
      assert zs + s == zs;
      AllZeros(z);
    } else {
      var t := zs + s;
      assert t[..|t| - 1] == zs + s[..|s| - 1];
      LeadingZeros(z, s[..|s| - 1]);
    }
  }

  lemma {:induction false} AllZeros(z: nat)
    ensures ParseDecimal(seq(z, _ => '0')) == 0
    decreases z
  {
    if z > 0 {
      var zs: string := seq(z, _ => '0');
      assert zs[..z - 1] == seq(z - 1, _ => '0');
      AllZeros(z - 1);
    }
  }

  /** Reading a zero-padded number back gives the number. */
  lemma ZeroPadRoundTrip(n: nat, width: nat)
    ensures ParseDecimal(ZeroPad(n, width)) == n
  {
    DecimalRoundTrip(n);
    var d := Decimal(n);
    if |d| < width {
      LeadingZeros(width - |d|, d);
    }
  }

  /** The anim file of a sequence: the stem followed by AnimSuffix of the two ids. */
  function AnimName(meshName: string, animationID: nat, subanimationID: nat): (r: string)
    ensures |r| >= |Stem(meshName)| + 12
    ensures r[..|Stem(meshName)|] == Stem(meshName)
    ensures r[|r| - 5..] == ".anim"
  {
    Stem(meshName) + AnimSuffix(animationID, subanimationID)
  }

  /** The size of the character buffer the loader formats the anim suffix into. */
  const ANIM_SUFFIX_BUFFER: nat := 13

  /** "%04d-%02d.anim" of the two ids. */
  function AnimSuffix(animationID: nat, subanimationID: nat): (r: string)
    ensures |r| == |ZeroPad(animationID, 4)| + |ZeroPad(subanimationID, 2)| + 6
    ensures r[|r| - 5..] == ".anim"
  {
    ZeroPad(animationID, 4) + "-" + ZeroPad(subanimationID, 2) + ".anim"
  }

  /**
   * The suffix and its terminating zero fit the loader's buffer exactly when
   * the animation id has at most four digits and the sub-id at most two; any
   * larger id makes the formatting write past the buffer.
   */
  lemma AnimSuffixFits(animationID: nat, subanimationID: nat)
    ensures |AnimSuffix(animationID, subanimationID)| + 1 <= ANIM_SUFFIX_BUFFER
            <==> animationID < 10000 && subanimationID < 100
    ensures animationID < 10000 && subanimationID < 100 ==> |AnimSuffix(animationID, subanimationID)| == 12
  {
  }

  /**
   * For ids that fit their widths the anim name of "<stem>.m2" is exactly
   * stem + 4 digits + "-" + 2 digits + ".anim", and both ids can be read back.
   */
  lemma AnimNameOfM2(stem: string, animationID: nat, subanimationID: nat)
    requires animationID < 10000 && subanimationID < 100
    ensures var r := AnimName(stem + ".m2", animationID, subanimationID);
            var n := |stem|;
            |r| == n + 12 && r[..n] == stem && r[n + 4] == '-' && r[n + 7..] == ".anim"
            && (forall k :: n <= k < n + 4 || n + 5 <= k < n + 7 ==> IsDigit(r[k]))
            && ParseDecimal(r[n..n + 4]) == animationID && ParseDecimal(r[n + 5..n + 7]) == subanimationID
  {
    assert Stem(stem + ".m2") == stem;
    var a, b := ZeroPad(animationID, 4), ZeroPad(subanimationID, 2);
    var r := AnimName(stem + ".m2", animationID, subanimationID);
    var n := |stem|;
    assert r == stem + a + "-" + b + ".anim" by {
      assert AnimSuffix(animationID, subanimationID) == a + "-" + b + ".anim";
    }
    assert r[n..n + 4] == a;
    assert r[n + 5..n + 7] == b;
    ZeroPadRoundTrip(animationID, 4);
    ZeroPadRoundTrip(subanimationID, 2);
  }
}
