/** Byte lengths of JSON texts, as far as page budgets depend on them. */
module JsonSize {

  /** Decimal digits of a number. */
  function Digits(n: nat): (d: nat)
    ensures d >= 1
  {
    if n < 10 then 1 else 1 + Digits(n / 10)
  }

  lemma {:induction false} DigitsMonotone(a: nat, b: nat)
    requires a <= b
    ensures Digits(a) <= Digits(b)
  {
    if b >= 10 && a >= 10 {
      DigitsMonotone(a / 10, b / 10);
    }
  }

  function Sum(sizes: seq<nat>): nat {
    if sizes == [] then 0 else Sum(sizes[..|sizes| - 1]) + sizes[|sizes| - 1]
  }

  /** Brackets, members and commas of an array whose members take `sizes` bytes. */
  function ArrayBytes(sizes: seq<nat>): nat {
    2 + Sum(sizes) + if sizes == [] then 0 else |sizes| - 1
  }

  lemma {:induction false} ArrayMonotone(sizes: seq<nat>, a: nat, b: nat)
    requires a <= b <= |sizes|
    ensures ArrayBytes(sizes[..a]) <= ArrayBytes(sizes[..b])
  {
    if a < b {
      ArrayMonotone(sizes, a, b - 1);
      assert sizes[..b][..b - 1] == sizes[..b - 1];
    }
  }

  lemma {:induction false} SumPrepend(x: nat, a: seq<nat>)
    ensures Sum([x] + a) == x + Sum(a)
  {
    if a == [] {
      assert [x] + a == [] + [x];
    } else {
      SumPrepend(x, a[..|a| - 1]);
      assert ([x] + a)[..|a|] == [x] + a[..|a| - 1];
    }
  }

  // ---- The texts themselves ----

  function Decimal(n: nat): string {
    if n < 10 then ['0' + n as char] else Decimal(n / 10) + ['0' + (n % 10) as char]
  }

  lemma {:induction false} DecimalLength(n: nat)
    ensures |Decimal(n)| == Digits(n)
  {
    if n >= 10 {
      DecimalLength(n / 10);
    }
  }

  function Lengths(texts: seq<string>): (r: seq<nat>)
    ensures |r| == |texts| && forall i | 0 <= i < |r| :: r[i] == |texts[i]|
  {
    seq(|texts|, i requires 0 <= i < |texts| => |texts[i]|)
  }

  function WithCommas(texts: seq<string>): string {
    if texts == [] then ""
    else
      var n := |texts| - 1;
      if n == 0 then texts[0] else WithCommas(texts[..n]) + "," + texts[n]
  }

  function ArrayText(texts: seq<string>): string {
    "[" + WithCommas(texts) + "]"
  }

  /** An array takes as many bytes as its text is long. */
  lemma {:induction false} ArrayTextLength(texts: seq<string>)
    ensures |ArrayText(texts)| == ArrayBytes(Lengths(texts))
  {
    if texts == [] {
      assert WithCommas(texts) == "" && Lengths(texts) == [];
    } else {
      var n := |texts| - 1;
      assert Lengths(texts)[..n] == Lengths(texts[..n]);
      ArrayTextLength(texts[..n]);
      assert Sum(Lengths(texts)) == Sum(Lengths(texts[..n])) + |texts[n]|;
    }
  }
}
