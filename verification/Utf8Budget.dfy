/**
 Cutting text to a budget of UTF-8 bytes without splitting a character
 (packages/agent-extension/src/tool-output-budget.ts). Byte lengths are those of section 3 of RFC 3629;
 a surrogate without its partner is written as U+FFFD.
 */
module Utf8Budget {
  import opened Utf16

  predicate IsHigh(c: CodeUnit) { 0xd800 <= c <= 0xdbff }
  predicate IsLow(c: CodeUnit) { 0xdc00 <= c <= 0xdfff }

  predicate PairAt(s: Text, i: nat) {
    i + 1 < |s| && IsHigh(s[i]) && IsLow(s[i + 1])
  }

  /** Code units of the code point that starts at `i`. */
  function Units(s: Text, i: nat): (n: nat)
    requires i < |s|
    ensures 1 <= n <= |s| - i
  {
    if PairAt(s, i) then 2 else 1
  }

  function UnitBytes(c: CodeUnit): nat {
    if c < 0x80 then 1 else if c < 0x800 then 2 else 3
  }

  /** Bytes of the code point that starts at `i`. */
  function PointBytes(s: Text, i: nat): nat
    requires i < |s|
  {
    if PairAt(s, i) then 4 else UnitBytes(s[i])
  }

  /** Buffer.byteLength. */
  function ByteLength(s: Text): nat {
    if s == [] then 0 else PointBytes(s, 0) + ByteLength(s[Units(s, 0)..])
  }

  // ---- The bytes themselves ----

  /** The code point that starts at `i`; a surrogate without its partner counts as U+FFFD. */
  function PointAt(s: Text, i: nat): (point: nat)
    requires i < |s|
    ensures point < 0x110000
  {
    if PairAt(s, i) then 0x10000 + (s[i] as int - 0xd800) * 0x400 + (s[i + 1] as int - 0xdc00)
    else if 0xd800 <= s[i] <= 0xdfff then 0xfffd
    else s[i] as int
  }

  /** Every code point beyond 16 bits is such a pair, section 2.1 of RFC 2781. */
  lemma PairsAreLargePoints(point: nat)
    requires 0x10000 <= point < 0x110000
    ensures var rest := point - 0x10000;
      var s := [(0xd800 + rest / 0x400) as CodeUnit, (0xdc00 + rest % 0x400) as CodeUnit];
      PairAt(s, 0) && PointAt(s, 0) == point
  {
  }

  /** The lowest `n` groups of six bits, each as a continuation byte, and what is left above them. */
  function Continuation(point: nat, n: nat): (r: seq<nat>)
    ensures |r| == n && forall b | b in r :: 0x80 <= b < 0xc0
  {
    if n == 0 then [] else Continuation(point / 0x40, n - 1) + [0x80 + point % 0x40]
  }

  function Above(point: nat, n: nat): nat {
    if n == 0 then point else Above(point / 0x40, n - 1)
  }

  /** The bytes of a code point, section 3 of RFC 3629. */
  function Encoded(point: nat): (bytes: seq<nat>)
    requires point < 0x110000
    ensures 1 <= |bytes| <= 4
  {
    if point < 0x80 then [point]
    else if point < 0x800 then [0xc0 + Above(point, 1)] + Continuation(point, 1)
    else if point < 0x10000 then [0xe0 + Above(point, 2)] + Continuation(point, 2)
    else [0xf0 + Above(point, 3)] + Continuation(point, 3)
  }

  function WithGroups(above: int, continuation: seq<nat>): int {
    if continuation == [] then above
    else
      var n := |continuation| - 1;
      WithGroups(above, continuation[..n]) * 0x40 + (continuation[n] as int - 0x80)
  }

  /** The code point of such bytes, by their leading one. */
  function Decoded(bytes: seq<nat>): int
    requires bytes != []
  {
    var lead: int := bytes[0];
    WithGroups(if lead < 0x80 then lead else if lead < 0xe0 then lead - 0xc0 else if lead < 0xf0 then lead - 0xe0
                 else lead - 0xf0, bytes[1..])
  }

  lemma {:induction false} GroupsRoundTrip(point: nat, n: nat)
    ensures WithGroups(Above(point, n), Continuation(point, n)) == point
  {
    if n > 0 {
      GroupsRoundTrip(point / 0x40, n - 1);
      assert Continuation(point, n)[..n - 1] == Continuation(point / 0x40, n - 1);
    }
  }

  lemma AboveBounds(point: nat)
    requires point < 0x110000
    ensures point < 0x800 ==> Above(point, 1) < 0x20
    ensures point < 0x10000 ==> Above(point, 2) < 0x10
    ensures Above(point, 3) < 0x8
  {
    assert Above(point, 1) == point / 0x40;
    assert Above(point, 2) == Above(point / 0x40, 1) == point / 0x40 / 0x40;
    assert Above(point, 3) == Above(point / 0x40, 2) == point / 0x40 / 0x40 / 0x40;
  }

  /** Decoding the bytes of a code point gives it back, so there is one encoding for each. */
  lemma EncodedRoundTrip(point: nat)
    requires point < 0x110000
    ensures Decoded(Encoded(point)) == point && forall b | b in Encoded(point) :: b < 0x100
  {
    var n := if point < 0x80 then 0 else if point < 0x800 then 1 else if point < 0x10000 then 2 else 3;
    AboveBounds(point);
    GroupsRoundTrip(point, n);
    assert Encoded(point)[1..] == Continuation(point, n);
  }

  function EncodedText(s: Text): seq<nat> {
    if s == [] then [] else Encoded(PointAt(s, 0)) + EncodedText(s[Units(s, 0)..])
  }

  /** The byte length of a text is that of its UTF-8 encoding. */
  lemma {:induction false} ByteLengthIsEncoded(s: Text)
    ensures ByteLength(s) == |EncodedText(s)|
  {
    if s != [] {
      ByteLengthIsEncoded(s[Units(s, 0)..]);
    }
  }

  /** Position `i` is not inside a surrogate pair. */
  predicate Boundary(s: Text, i: nat) {
    i <= |s| && !(0 < i < |s| && PairAt(s, i - 1))
  }

  // ---- Lengths add up at boundaries ----

  lemma {:induction false} ByteLengthSplits(s: Text, k: nat)
    requires Boundary(s, k)
    ensures ByteLength(s) == ByteLength(s[..k]) + ByteLength(s[k..])
  {
    if k == 0 {
      assert s[k..] == s;
    } else {
      var n := Units(s, 0);
      assert k >= n;
      ByteLengthSplits(s[n..], k - n);
      assert s[n..][..k - n] == s[..k][n..];
      assert s[n..][k - n..] == s[k..];
      assert PointBytes(s[..k], 0) == PointBytes(s, 0);
    }
  }

  lemma SomeBytes(s: Text)
    requires s != []
    ensures ByteLength(s) > 0
  {
  }

  lemma PrefixSplits(s: Text, j: nat, k: nat)
    requires Boundary(s, j) && Boundary(s, k) && j < k
    ensures ByteLength(s[..k]) == ByteLength(s[..j]) + ByteLength(s[j..k])
  {
    ByteLengthSplits(s[..k], j);
    assert s[..k][..j] == s[..j] && s[..k][j..] == s[j..k];
  }

  lemma SuffixSplits(s: Text, j: nat, k: nat)
    requires Boundary(s, j) && Boundary(s, k) && j < k
    ensures ByteLength(s[j..]) == ByteLength(s[j..k]) + ByteLength(s[k..])
  {
    ByteLengthSplits(s[j..], k - j);
    assert s[j..][..k - j] == s[j..k] && s[j..][k - j..] == s[k..];
  }

  /** A longer prefix that ends at a boundary takes more bytes; likewise a longer suffix. */
  lemma LongerTakesMore(s: Text, j: nat, k: nat)
    requires Boundary(s, j) && Boundary(s, k) && j < k
    ensures ByteLength(s[..j]) < ByteLength(s[..k])
    ensures ByteLength(s[j..]) > ByteLength(s[k..])
    ensures ByteLength(s[j..]) == ByteLength(s[j..k]) + ByteLength(s[k..])
    ensures ByteLength(s[..k]) == ByteLength(s[..j]) + ByteLength(s[j..k])
  {
    PrefixSplits(s, j, k);
    SuffixSplits(s, j, k);
    SomeBytes(s[j..k]);
  }

  // ---- Scanning forward and backward finds the same cuts ----

  /** The positions a scan from the start stops at, from `i` on. */
  function ForwardCuts(s: Text, i: nat): set<nat>
    requires i <= |s|
    decreases |s| - i
  {
    {i} + if i == |s| then {} else ForwardCuts(s, i + Units(s, i))
  }

  /** How far the scan from the end steps back at `i`. */
  function UnitsBefore(s: Text, i: nat): (n: nat)
    requires 0 < i <= |s|
    ensures 1 <= n <= i
  {
    if i >= 2 && IsLow(s[i - 1]) && IsHigh(s[i - 2]) then 2 else 1
  }

  function BackwardCuts(s: Text, i: nat): set<nat>
    requires i <= |s|
  {
    {i} + if i == 0 then {} else BackwardCuts(s, i - UnitsBefore(s, i))
  }

  lemma {:induction false} ForwardCutsAreBoundaries(s: Text, i: nat)
    requires Boundary(s, i)
    ensures forall k: nat :: k in ForwardCuts(s, i) <==> k >= i && Boundary(s, k)
    decreases |s| - i
  {
    if i < |s| {
      ForwardCutsAreBoundaries(s, i + Units(s, i));
    }
  }

  lemma {:induction false} BackwardCutsAreBoundaries(s: Text, i: nat)
    requires Boundary(s, i)
    ensures forall k: nat :: k in BackwardCuts(s, i) <==> k <= i && Boundary(s, k)
  {
    if i > 0 {
      BackwardCutsAreBoundaries(s, i - UnitsBefore(s, i));
    }
  }

  /** However surrogates are arranged, both scans cut at the same positions. */
  lemma ScansAgree(s: Text)
    ensures ForwardCuts(s, 0) == BackwardCuts(s, |s|)
  {
    ForwardCutsAreBoundaries(s, 0);
    BackwardCutsAreBoundaries(s, |s|);
  }

  // ---- The cuts ----

  ghost predicate LongestPrefix(s: Text, budget: nat, k: nat) {
    && Boundary(s, k) && ByteLength(s[..k]) <= budget
    && forall j: nat :: k < j && Boundary(s, j) ==> ByteLength(s[..j]) > budget
  }

  ghost predicate LongestSuffix(s: Text, budget: nat, k: nat) {
    && Boundary(s, k) && ByteLength(s[k..]) <= budget
    && forall j: nat :: j < k && Boundary(s, j) ==> ByteLength(s[j..]) > budget
  }

  /** One more code point takes its own bytes more. */
  lemma PointTakes(s: Text, k: nat)
    requires k < |s| && Boundary(s, k)
    ensures Boundary(s, k + Units(s, k))
    ensures ByteLength(s[..k + Units(s, k)]) == ByteLength(s[..k]) + PointBytes(s, k)
  {
    var next := k + Units(s, k);
    LongerTakesMore(s, k, next);
    var point := s[k..next];
    assert point[Units(point, 0)..] == [];
  }

  /** No boundary lies before the end of a code point. */
  lemma NextBoundary(s: Text, k: nat, j: nat)
    requires k < j && Boundary(s, k) && Boundary(s, j)
    ensures k + Units(s, k) <= j && ByteLength(s[..k]) + PointBytes(s, k) <= ByteLength(s[..j])
  {
    PointTakes(s, k);
    if k + Units(s, k) < j {
      LongerTakesMore(s, k + Units(s, k), j);
    }
  }

  lemma NoLongerPrefix(s: Text, budget: nat, k: nat)
    requires k < |s| && Boundary(s, k) && ByteLength(s[..k]) <= budget < ByteLength(s[..k]) + PointBytes(s, k)
    ensures LongestPrefix(s, budget, k)
  {
    forall j: nat | k < j && Boundary(s, j) ensures ByteLength(s[..j]) > budget {
      NextBoundary(s, k, j);
    }
  }

  method TakeUtf8Start(text: Text, budget: nat) returns (k: nat, result: Text)
    ensures LongestPrefix(text, budget, k) && result == text[..k]
  {
    var used := 0;
    k, result := 0, [];
    while k < |text|
      invariant Boundary(text, k) && result == text[..k]
      invariant used == ByteLength(text[..k]) && used <= budget
    {
      var next := k + Units(text, k);
      var bytes := PointBytes(text, k);
      PointTakes(text, k);
      if used + bytes > budget {
        NoLongerPrefix(text, budget, k);
        return;
      }
      result := result + text[k..next];
      used := used + bytes;
      k := next;
    }
  }

  method TakeUtf8End(text: Text, budget: nat) returns (start: nat, result: Text)
    ensures LongestSuffix(text, budget, start) && result == text[start..]
  {
    var used := 0;
    start := |text|;
    var cursor := |text|;
    while cursor > 0
      invariant cursor == start && Boundary(text, start)
      invariant used == ByteLength(text[start..]) && used <= budget
    {
      var end := cursor;
      cursor := cursor - UnitsBefore(text, cursor);
      LongerTakesMore(text, cursor, end);
      var bytes := ByteLength(text[cursor..end]);
      if used + bytes > budget {
        forall j: nat | j < start && Boundary(text, j) ensures ByteLength(text[j..]) > budget {
          if j < cursor {
            LongerTakesMore(text, j, cursor);
          }
        }
        break;
      }
      start := cursor;
      used := used + bytes;
    }
    result := text[start..];
  }

  const ELLIPSIS: Text := [0x2026]

  /** At most `maxBytes` bytes: all of the text, or as much as leaves room for an ellipsis, or nothing. */
  method TruncateUtf8(value: Text, maxBytes: nat) returns (r: Text)
    ensures ByteLength(r) <= maxBytes
    ensures ByteLength(value) <= maxBytes ==> r == value
    ensures ByteLength(value) > maxBytes && maxBytes <= 3 ==> r == []
    ensures ByteLength(value) > maxBytes > 3 ==>
      exists k: nat :: LongestPrefix(value, maxBytes - 3, k) && r == value[..k] + ELLIPSIS
  {
    if ByteLength(value) <= maxBytes {
      return value;
    }
    if maxBytes <= 3 {
      return [];
    }
    var k, kept := TakeUtf8Start(value, maxBytes - 3);
    r := kept + ELLIPSIS;
    assert Boundary(r, k) && r[..k] == kept && r[k..] == ELLIPSIS;
    ByteLengthSplits(r, k);
  }

  method HeadTailPreview(text: Text, budget: nat, notice: Text) returns (r: Text)
    ensures exists head: nat, tail: nat ::
      && LongestPrefix(text, (budget + 1) / 2, head) && LongestSuffix(text, budget / 2, tail)
      && r == text[..head] + notice + text[tail..]
  {
    var head, start := TakeUtf8Start(text, (budget + 1) / 2);
    var tail, end := TakeUtf8End(text, budget / 2);
    r := start + notice + end;
  }

  /** A preview within the text's own size shows no part of it twice. */
  lemma HeadAndTailDisjoint(text: Text, budget: nat, head: nat, tail: nat)
    requires budget <= ByteLength(text)
    requires LongestPrefix(text, (budget + 1) / 2, head) && LongestSuffix(text, budget / 2, tail)
    ensures head <= tail
  {
    ByteLengthSplits(text, head);
    if tail < head {
      LongerTakesMore(text, tail, head);
    }
  }

  /** The code point at `j` lies, with all its bytes, both in the first and in the last half of the budget. */
  ghost predicate InBothHalves(text: Text, budget: nat, j: nat) {
    && j < |text| && Boundary(text, j)
    && ByteLength(text) - budget / 2 <= ByteLength(text[..j])
    && ByteLength(text[..j]) + PointBytes(text, j) <= (budget + 1) / 2
  }

  lemma RepeatedIsInBoth(text: Text, budget: nat, head: nat, tail: nat)
    requires LongestPrefix(text, (budget + 1) / 2, head) && LongestSuffix(text, budget / 2, tail) && tail < head
    ensures InBothHalves(text, budget, tail)
  {
    ByteLengthSplits(text, tail);
    NextBoundary(text, tail, head);
  }

  lemma InBothIsRepeated(text: Text, budget: nat, head: nat, tail: nat, j: nat)
    requires LongestPrefix(text, (budget + 1) / 2, head) && LongestSuffix(text, budget / 2, tail)
    requires InBothHalves(text, budget, j)
    ensures tail <= j < head
  {
    ByteLengthSplits(text, j);
    PointTakes(text, j);
    assert j + Units(text, j) <= head;
  }

  /** A preview repeats text exactly when some code point lies in both halves of the budget. */
  lemma PreviewRepeatsIff(text: Text, budget: nat, head: nat, tail: nat)
    requires LongestPrefix(text, (budget + 1) / 2, head) && LongestSuffix(text, budget / 2, tail)
    ensures tail < head <==> exists j: nat :: InBothHalves(text, budget, j)
  {
    if tail < head {
      RepeatedIsInBoth(text, budget, head, tail);
    }
    if j: nat :| InBothHalves(text, budget, j) {
      InBothIsRepeated(text, budget, head, tail, j);
    }
  }

  /** With at least twice the text's bytes as budget, all of a text is shown twice. */
  lemma AmpleBudgetRepeats(text: Text, budget: nat, head: nat, tail: nat)
    requires text != [] && budget >= 2 * ByteLength(text)
    requires LongestPrefix(text, (budget + 1) / 2, head) && LongestSuffix(text, budget / 2, tail)
    ensures tail == 0 < |text| == head
  {
    assert text[..|text|] == text && text[0..] == text;
    assert Boundary(text, |text|) && Boundary(text, 0);
  }

  /** A budget above the text's bytes need not repeat anything: one character of four bytes, five bytes of budget. */
  lemma LargerBudgetMayRepeatNothing(head: nat, tail: nat)
    requires LongestPrefix([0xd83d, 0xde00], 3, head) && LongestSuffix([0xd83d, 0xde00], 2, tail)
    ensures ByteLength([0xd83d, 0xde00]) == 4 && head == 0 && tail == 2
  {
    var text: Text := [0xd83d, 0xde00];
    assert PairAt(text, 0) && text[2..] == [] && text[..2] == text && text[0..] == text;
    assert ByteLength(text) == 4 + ByteLength(text[2..]);
    assert !Boundary(text, 1);
  }
}
