/** Printing a file path into a citation tag and reading it back (packages/agent-extension/src/source-reference.ts). */
module FilePathTag {
  import opened Prelude
  import opened Utf16

  const QUOTE: CodeUnit := 34
  const AMPERSAND: CodeUnit := 38
  const APOSTROPHE: CodeUnit := 39
  const LESS: CodeUnit := 60
  const EQUALS: CodeUnit := 61
  const GREATER: CodeUnit := 62

  const AMP: Text := [38, 97, 109, 112, 59]
  const QUOT: Text := [38, 113, 117, 111, 116, 59]
  const LT: Text := [38, 108, 116, 59]
  const GT: Text := [38, 103, 116, 59]
  const APOS: Text := [38, 35, 51, 57, 59]

  /** String.prototype.replaceAll with a string pattern. */
  function ReplaceAll(s: Text, pattern: Text, put: Text): Text
    requires pattern != []
    decreases |s|
  {
    if s == [] then []
    else if pattern <= s then put + ReplaceAll(s[|pattern|..], pattern, put)
    else [s[0]] + ReplaceAll(s[1..], pattern, put)
  }

  function EscapeHtmlAttribute(value: Text): Text {
    ReplaceAll(ReplaceAll(ReplaceAll(ReplaceAll(value, [AMPERSAND], AMP), [QUOTE], QUOT), [LESS], LT), [GREATER], GT)
  }

  function DecodeBasicHtmlEntities(value: Text): Text {
    ReplaceAll(ReplaceAll(ReplaceAll(ReplaceAll(ReplaceAll(value, QUOT, [QUOTE]), APOS, [APOSTROPHE]), LT, [LESS]), GT,
                          [GREATER]), AMP, [AMPERSAND])
  }

  // ---- The passes in between: some characters written as entities, the rest as themselves ----

  predicate Special(c: CodeUnit) {
    c == AMPERSAND || c == QUOTE || c == LESS || c == GREATER
  }

  function EntityOf(c: CodeUnit): (e: Text)
    requires Special(c)
    ensures |e| >= 4 && e[0] == AMPERSAND
    ensures forall i | 1 <= i < |e| :: !Special(e[i])
  {
    if c == AMPERSAND then AMP else if c == QUOTE then QUOT else if c == LESS then LT else GT
  }

  function Coded(p: Text, coded: set<CodeUnit>): Text
    requires forall c | c in coded :: Special(c)
  {
    if p == [] then []
    else (if p[0] in coded then EntityOf(p[0]) else [p[0]]) + Coded(p[1..], coded)
  }

  lemma {:induction false} CodedNothing(p: Text)
    ensures Coded(p, {}) == p
  {
    if p != [] {
      CodedNothing(p[1..]);
    }
  }

  /** A stretch in which the pattern's first character does not occur is copied. */
  lemma {:induction false} CopiedStretch(a: Text, rest: Text, pattern: Text, put: Text)
    requires pattern != [] && pattern[0] !in a
    ensures ReplaceAll(a + rest, pattern, put) == a + ReplaceAll(rest, pattern, put)
  {
    if a == [] {
      assert a + rest == rest;
    } else {
      assert (a + rest)[1..] == a[1..] + rest;
      assert (a + rest)[0] == a[0];
      CopiedStretch(a[1..], rest, pattern, put);
    }
  }

  lemma EscapeOne(c: CodeUnit, rest: Text, put: Text)
    ensures ReplaceAll([c] + rest, [c], put) == put + ReplaceAll(rest, [c], put)
  {
    assert ([c] + rest)[1..] == rest;
  }

  /** One escaping pass turns one more special character into its entity; the ampersand has to come first. */
  lemma {:induction false} EscapePass(p: Text, coded: set<CodeUnit>, c: CodeUnit)
    requires forall x | x in coded :: Special(x)
    requires Special(c) && c !in coded && (c == AMPERSAND ==> coded == {})
    ensures ReplaceAll(Coded(p, coded), [c], EntityOf(c)) == Coded(p, coded + {c})
  {
    if p != [] {
      EscapePass(p[1..], coded, c);
      var rest := Coded(p[1..], coded);
      if p[0] == c {
        EscapeOne(c, rest, EntityOf(c));
      } else {
        CopiedStretch(if p[0] in coded then EntityOf(p[0]) else [p[0]], rest, [c], EntityOf(c));
      }
    }
  }

  /** An entity other than the pattern is copied, because the two differ at their second character. */
  lemma CopiedEntity(entity: Text, rest: Text, pattern: Text, put: Text)
    requires |entity| > 1 && |pattern| > 1 && entity[0] == pattern[0] && entity[1] != pattern[1]
    requires pattern[0] !in entity[1..]
    ensures ReplaceAll(entity + rest, pattern, put) == entity + ReplaceAll(rest, pattern, put)
  {
    var all := entity + rest;
    assert all[1] == entity[1];
    assert all[1..] == entity[1..] + rest;
    CopiedStretch(entity[1..], rest, pattern, put);
    assert entity == [entity[0]] + entity[1..];
  }

  /** One decoding pass turns one entity back; the ampersand has to come last. */
  lemma {:induction false} DecodePass(p: Text, coded: set<CodeUnit>, c: CodeUnit)
    requires forall x | x in coded :: Special(x)
    requires c in coded && AMPERSAND in coded && (c == AMPERSAND ==> coded == {AMPERSAND})
    ensures ReplaceAll(Coded(p, coded), EntityOf(c), [c]) == Coded(p, coded - {c})
  {
    if p != [] {
      DecodePass(p[1..], coded, c);
      var rest := Coded(p[1..], coded);
      if p[0] == c {
        assert (EntityOf(c) + rest)[|EntityOf(c)|..] == rest;
      } else if p[0] in coded {
        CopiedEntity(EntityOf(p[0]), rest, EntityOf(c), [c]);
      } else {
        CopiedStretch([p[0]], rest, EntityOf(c), [c]);
      }
    }
  }

  /** Escaping writes no apostrophe entity, so undoing one changes nothing. */
  lemma {:induction false} NoApostropheEntity(p: Text, coded: set<CodeUnit>)
    requires (forall x | x in coded :: Special(x)) && AMPERSAND in coded
    ensures ReplaceAll(Coded(p, coded), APOS, [APOSTROPHE]) == Coded(p, coded)
  {
    if p != [] {
      NoApostropheEntity(p[1..], coded);
      var rest := Coded(p[1..], coded);
      if p[0] in coded {
        CopiedEntity(EntityOf(p[0]), rest, APOS, [APOSTROPHE]);
      } else {
        CopiedStretch([p[0]], rest, APOS, [APOSTROPHE]);
      }
    }
  }

  lemma {:induction false} CodedHidesSpecials(p: Text, coded: set<CodeUnit>)
    requires (forall x | x in coded :: Special(x)) && AMPERSAND in coded
    ensures forall c | c in coded && c != AMPERSAND :: c !in Coded(p, coded)
  {
    if p != [] {
      CodedHidesSpecials(p[1..], coded);
    }
  }

  lemma EscapeIsCoded(p: Text)
    ensures EscapeHtmlAttribute(p) == Coded(p, {AMPERSAND, QUOTE, LESS, GREATER})
  {
    CodedNothing(p);
    EscapePass(p, {}, AMPERSAND);
    EscapePass(p, {AMPERSAND}, QUOTE);
    EscapePass(p, {AMPERSAND, QUOTE}, LESS);
    EscapePass(p, {AMPERSAND, QUOTE, LESS}, GREATER);
    assert {} + {AMPERSAND} == {AMPERSAND};
    assert {AMPERSAND} + {QUOTE} == {AMPERSAND, QUOTE};
    assert {AMPERSAND, QUOTE} + {LESS} == {AMPERSAND, QUOTE, LESS};
    assert {AMPERSAND, QUOTE, LESS} + {GREATER} == {AMPERSAND, QUOTE, LESS, GREATER};
  }

  /** Decoding undoes escaping on every string. */
  lemma DecodeEscape(p: Text)
    ensures DecodeBasicHtmlEntities(EscapeHtmlAttribute(p)) == p
  {
    EscapeIsCoded(p);
    DecodePass(p, {AMPERSAND, QUOTE, LESS, GREATER}, QUOTE);
    assert {AMPERSAND, QUOTE, LESS, GREATER} - {QUOTE} == {AMPERSAND, LESS, GREATER};
    NoApostropheEntity(p, {AMPERSAND, LESS, GREATER});
    DecodePass(p, {AMPERSAND, LESS, GREATER}, LESS);
    assert {AMPERSAND, LESS, GREATER} - {LESS} == {AMPERSAND, GREATER};
    DecodePass(p, {AMPERSAND, GREATER}, GREATER);
    assert {AMPERSAND, GREATER} - {GREATER} == {AMPERSAND};
    DecodePass(p, {AMPERSAND}, AMPERSAND);
    assert {AMPERSAND} - {AMPERSAND} == {};
    CodedNothing(p);
  }

  /** Nothing in an escaped text can end an attribute or a tag early. */
  lemma EscapedIsInert(p: Text)
    ensures QUOTE !in EscapeHtmlAttribute(p) && LESS !in EscapeHtmlAttribute(p) && GREATER !in EscapeHtmlAttribute(p)
  {
    EscapeIsCoded(p);
    CodedHidesSpecials(p, {AMPERSAND, QUOTE, LESS, GREATER});
  }

  // ---- Tags ----

  const OPEN: Text := [60, 102, 105, 108, 101, 112, 97, 116, 104]
  const PATH: Text := [112, 97, 116, 104]
  const DATA_PATH: Text := [100, 97, 116, 97, 45, 112, 97, 116, 104]
  const CLOSE: Text := [60, 47, 102, 105, 108, 101, 112, 97, 116, 104, 62]

  function PathAttribute(path: Text): Text {
    [32] + PATH + [EQUALS, QUOTE] + EscapeHtmlAttribute(path) + [QUOTE]
  }

  function PrintTag(path: Text, name: Text): Text {
    OPEN + PathAttribute(path) + [GREATER] + name + CLOSE
  }

  function IndexOf(s: Text, c: CodeUnit, from: nat): (i: nat)
    requires from <= |s|
    ensures from <= i <= |s| && (forall k | from <= k < i :: s[k] != c) && (i < |s| ==> s[i] == c)
    decreases |s| - from
  {
    if from == |s| || s[from] == c then from else IndexOf(s, c, from + 1)
  }

  predicate IsWordUnit(c: CodeUnit) {
    48 <= c <= 57 || 65 <= c <= 90 || c == 95 || 97 <= c <= 122 || c == 0x17f || c == 0x212a
  }

  predicate WordBoundary(s: Text, i: nat)
    requires i <= |s|
  {
    (i > 0 && IsWordUnit(s[i - 1])) != (i < |s| && IsWordUnit(s[i]))
  }

  function Lower(c: CodeUnit): CodeUnit {
    if 65 <= c <= 90 then c + 32 else c
  }

  predicate NameAt(s: Text, i: nat, name: Text) {
    i + |name| <= |s| && forall k | 0 <= k < |name| :: Lower(s[i + k]) == name[k]
  }

  function SkipSpaces(s: Text, i: nat): (j: nat)
    requires i <= |s|
    ensures i <= j <= |s| && (j < |s| ==> !IsSpace(s[j]))
    ensures forall k | i <= k < j :: IsSpace(s[k])
    decreases |s| - i
  {
    if i < |s| && IsSpace(s[i]) then SkipSpaces(s, i + 1) else i
  }

  /** A value in double or single quotes that starts at `i`. */
  function QuotedAt(s: Text, i: nat): Option<Text> {
    if i >= |s| || (s[i] != QUOTE && s[i] != APOSTROPHE) then None
    else
      var end := IndexOf(s, s[i], i + 1);
      if end == |s| then None else Some(s[i + 1..end])
  }

  function NameLength(s: Text, i: nat): (n: nat)
    ensures n > 0 ==> i + n <= |s|
  {
    if NameAt(s, i, DATA_PATH) then |DATA_PATH| else if NameAt(s, i, PATH) then |PATH| else 0
  }

  /** An attribute `data-path` or `path` with a quoted value that starts at `i`. */
  function AttributeAt(s: Text, i: nat): Option<Text>
    requires i <= |s|
  {
    var length := NameLength(s, i);
    if length == 0 || !WordBoundary(s, i) then None
    else
      var equals := SkipSpaces(s, i + length);
      if equals >= |s| || s[equals] != EQUALS then None else QuotedAt(s, SkipSpaces(s, equals + 1))
  }

  function FirstAttribute(s: Text, from: nat): Option<Text>
    requires from <= |s|
    decreases |s| - from
  {
    if AttributeAt(s, from).Some? then AttributeAt(s, from)
    else if from == |s| then None
    else FirstAttribute(s, from + 1)
  }

  function TrimStart(s: Text): Text {
    s[SkipSpaces(s, 0)..]
  }

  function TrimEnd(s: Text): Text {
    if s != [] && IsSpace(s[|s| - 1]) then TrimEnd(s[..|s| - 1]) else s
  }

  function FilePathFromCitationTag(attributes: Text, body: Text): Text {
    var value := FirstAttribute(attributes, 0);
    DecodeBasicHtmlEntities(if value.Some? then value.value else TrimEnd(TrimStart(body)))
  }

  /** The attribute text of a tag: what stands between its name and the first closing bracket. */
  function AttributesOf(tag: Text): Option<Text> {
    if !(OPEN <= tag) || !WordBoundary(tag, |OPEN|) then None
    else
      var end := IndexOf(tag, GREATER, |OPEN|);
      if end == |tag| then None else Some(tag[|OPEN|..end])
  }

  // ---- What is read as the path ----

  predicate AreSpaces(s: Text, i: nat, j: nat)
    requires i <= j <= |s|
  {
    forall k | i <= k < j :: IsSpace(s[k])
  }

  /** Where an attribute stands: its name starts at `at`; then the equals sign and the two quotes of its value. */
  datatype Attribute = Attribute(name: Text, at: nat, equals: nat, open: nat, close: nat) {
    predicate Within(s: Text) {
      && at + |name| <= equals < open < close < |s|
      && IsNamed(s) && (at == 0 || !IsWordUnit(s[at - 1]))
      && s[equals] == EQUALS && AreSpaces(s, at + |name|, equals) && AreSpaces(s, equals + 1, open)
      && IsQuoted(s)
    }

    /** The name in letters of either case. */
    predicate IsNamed(s: Text)
      requires at + |name| <= |s|
    {
      && (name == PATH || name == DATA_PATH)
      && forall k | at <= k < at + |name| ::
        s[k] == name[k - at] || (65 <= s[k] <= 90 && s[k] + 32 == name[k - at])
    }

    predicate IsQuoted(s: Text)
      requires open < close < |s|
    {
      && (s[open] == QUOTE || s[open] == APOSTROPHE) && s[close] == s[open]
      && forall k | open < k < close :: s[k] != s[open]
    }

    function Value(s: Text): Text
      requires open < close < |s|
    {
      s[open + 1..close]
    }
  }

  lemma NameIsRead(s: Text, a: Attribute)
    requires a.at + |a.name| <= |s| && a.IsNamed(s)
    ensures NameLength(s, a.at) == |a.name| > 0 && IsWordUnit(s[a.at])
  {
    assert s[a.at] == a.name[0] || s[a.at] + 32 == a.name[0];
    assert a.name == PATH ==> Lower(s[a.at + 0]) != DATA_PATH[0];
    forall k | 0 <= k < |a.name| ensures Lower(s[a.at + k]) == a.name[k] {
      assert s[a.at + k] == a.name[k] || s[a.at + k] + 32 == a.name[k];
    }
    assert NameAt(s, a.at, a.name);
  }

  lemma ValueIsRead(s: Text, a: Attribute)
    requires a.open < a.close < |s| && a.IsQuoted(s)
    ensures QuotedAt(s, a.open) == Some(a.Value(s))
  {
  }

  lemma SkipsSpaces(s: Text, i: nat, j: nat)
    requires i <= j < |s| && AreSpaces(s, i, j) && !IsSpace(s[j])
    ensures SkipSpaces(s, i) == j
  {
  }

  lemma ReadsValue(s: Text, i: nat, n: nat, equals: nat, open: nat)
    requires 0 < n == NameLength(s, i) && i + n <= equals < open < |s| && s[equals] == EQUALS && WordBoundary(s, i)
    requires SkipSpaces(s, i + n) == equals && SkipSpaces(s, equals + 1) == open
    ensures AttributeAt(s, i) == QuotedAt(s, open)
  {
  }

  /** An attribute that stands in the text is read where it stands. */
  lemma StandingIsRead(s: Text, a: Attribute)
    requires a.Within(s)
    ensures AttributeAt(s, a.at) == Some(a.Value(s))
  {
    NameIsRead(s, a);
    SkipsSpaces(s, a.at + |a.name|, a.equals);
    SkipsSpaces(s, a.equals + 1, a.open);
    ReadsValue(s, a.at, |a.name|, a.equals, a.open);
    ValueIsRead(s, a);
  }

  lemma NameStands(s: Text, i: nat) returns (name: Text)
    requires NameLength(s, i) > 0
    ensures |name| == NameLength(s, i) && forall a: Attribute | a.at == i && a.name == name :: a.IsNamed(s)
    ensures IsWordUnit(s[i])
  {
    name := if NameAt(s, i, DATA_PATH) then DATA_PATH else PATH;
    assert Lower(s[i + 0]) == name[0];
    forall k | i <= k < i + |name| ensures s[k] == name[k - i] || (65 <= s[k] <= 90 && s[k] + 32 == name[k - i]) {
      assert Lower(s[i + (k - i)]) == name[k - i];
    }
  }

  lemma ValueStands(s: Text, a: Attribute)
    requires a.open < |s| && QuotedAt(s, a.open).Some? && a.close == IndexOf(s, s[a.open], a.open + 1)
    ensures a.open < a.close < |s| && a.IsQuoted(s)
  {
  }

  lemma ReadsParts(s: Text, i: nat) returns (equals: nat, open: nat)
    requires i <= |s| && AttributeAt(s, i).Some?
    ensures 0 < NameLength(s, i) && i + NameLength(s, i) <= equals < open < |s| && WordBoundary(s, i)
    ensures s[equals] == EQUALS && AreSpaces(s, i + NameLength(s, i), equals) && AreSpaces(s, equals + 1, open)
    ensures QuotedAt(s, open).Some?
  {
    equals := SkipSpaces(s, i + NameLength(s, i));
    open := SkipSpaces(s, equals + 1);
  }

  /** What is read is the value of an attribute that stands there. */
  lemma ReadStands(s: Text, i: nat) returns (a: Attribute)
    requires i <= |s| && AttributeAt(s, i).Some?
    ensures a.Within(s) && a.at == i
  {
    var equals, open := ReadsParts(s, i);
    var name := NameStands(s, i);
    a := Attribute(name, i, equals, open, IndexOf(s, s[open], open + 1));
    ValueStands(s, a);
  }

  /** Up to `i`, no attribute is read. */
  lemma {:induction false} ReadsOn(s: Text, from: nat, i: nat)
    requires from <= i <= |s| && forall a: Attribute | a.Within(s) :: i <= a.at
    ensures FirstAttribute(s, from) == FirstAttribute(s, i)
    decreases i - from
  {
    if from < i {
      if AttributeAt(s, from).Some? {
        var a := ReadStands(s, from);
      }
      ReadsOn(s, from + 1, i);
    }
  }

  ghost predicate IsFirst(s: Text, a: Attribute) {
    a.Within(s) && forall b: Attribute | b.Within(s) :: a.at <= b.at
  }

  lemma FirstIsRead(s: Text, a: Attribute)
    requires IsFirst(s, a)
    ensures FirstAttribute(s, 0) == Some(a.Value(s))
  {
    ReadsOn(s, 0, a.at);
    StandingIsRead(s, a);
  }

  lemma NoneIsRead(s: Text)
    requires forall a: Attribute :: !a.Within(s)
    ensures FirstAttribute(s, 0).None?
  {
    ReadsOn(s, 0, |s|);
    if AttributeAt(s, |s|).Some? {
      var a := ReadStands(s, |s|);
    }
  }

  /** The text without the spaces around it. */
  ghost predicate IsTrimmed(s: Text, i: nat, j: nat) {
    && i <= j <= |s| && AreSpaces(s, 0, i) && AreSpaces(s, j, |s|)
    && (i < j ==> !IsSpace(s[i]) && !IsSpace(s[j - 1]))
  }

  lemma {:induction false} TrimEndStops(s: Text, j: nat)
    requires j <= |s| && AreSpaces(s, j, |s|) && (j > 0 ==> !IsSpace(s[j - 1]))
    ensures TrimEnd(s) == s[..j]
    decreases |s|
  {
    if j < |s| {
      TrimEndStops(s[..|s| - 1], j);
      assert s[..|s| - 1][..j] == s[..j];
    } else {
      assert s[..j] == s;
    }
  }

  lemma TrimsSpaces(s: Text, i: nat, j: nat)
    requires IsTrimmed(s, i, j)
    ensures TrimEnd(TrimStart(s)) == s[i..j]
  {
    if i < j {
      assert SkipSpaces(s, 0) == i;
      TrimEndStops(s[i..], j - i);
      assert s[i..][..j - i] == s[i..j];
    } else {
      assert SkipSpaces(s, 0) == |s|;
    }
  }

  /** The first attribute of the tag gives the path. */
  lemma PathIsRead(attributes: Text, body: Text, a: Attribute)
    requires IsFirst(attributes, a)
    ensures FilePathFromCitationTag(attributes, body) == DecodeBasicHtmlEntities(a.Value(attributes))
  {
    FirstIsRead(attributes, a);
  }

  /** Without an attribute the body does, without the spaces around it. */
  lemma BodyIsRead(attributes: Text, body: Text, i: nat, j: nat)
    requires IsTrimmed(body, i, j) && forall a: Attribute :: !a.Within(attributes)
    ensures FilePathFromCitationTag(attributes, body) == DecodeBasicHtmlEntities(body[i..j])
  {
    NoneIsRead(attributes);
    TrimsSpaces(body, i, j);
  }

  lemma IndexOfInert(s: Text, c: CodeUnit, from: nat, inert: Text)
    requires from + |inert| < |s| && s[from..from + |inert|] == inert && c !in inert && s[from + |inert|] == c
    ensures IndexOf(s, c, from) == from + |inert|
  {
    assert forall k | from <= k < from + |inert| :: s[k] == inert[k - from];
  }

  /** The attribute of a printed tag is read as the escaped path. */
  lemma AttributeOfPrinted(path: Text)
    ensures FirstAttribute(PathAttribute(path), 0) == Some(EscapeHtmlAttribute(path))
  {
    var escaped := EscapeHtmlAttribute(path);
    var s := PathAttribute(path);
    EscapedIsInert(path);
    assert s[0] == 32 && s[1] == 112 && s[2] == 97 && s[3] == 116 && s[4] == 104 && s[5] == EQUALS && s[6] == QUOTE;
    assert s[7..7 + |escaped|] == escaped;
    assert Lower(s[1 + 0]) != DATA_PATH[0] && Lower(s[0 + 0]) != DATA_PATH[0] && Lower(s[0 + 0]) != PATH[0];
    assert NameAt(s, 1, PATH) && !NameAt(s, 1, DATA_PATH);
    assert !NameAt(s, 0, PATH) && !NameAt(s, 0, DATA_PATH);
    assert SkipSpaces(s, 5) == 5 && SkipSpaces(s, 6) == 6;
    IndexOfInert(s, QUOTE, 7, escaped);
    assert AttributeAt(s, 0) == None;
    assert AttributeAt(s, 1) == QuotedAt(s, 6) == Some(escaped);
  }

  /** Reading a printed tag gives back the path, whatever characters the path holds. */
  lemma TagRoundTrip(path: Text, name: Text, body: Text)
    ensures var attributes := AttributesOf(PrintTag(path, name));
      && attributes.Some? && FilePathFromCitationTag(attributes.value, body) == path
      && PrintTag(path, name) == OPEN + attributes.value + [GREATER] + name + CLOSE
  {
    var tag := PrintTag(path, name);
    var attribute := PathAttribute(path);
    EscapedIsInert(path);
    assert GREATER !in attribute;
    assert OPEN <= tag;
    assert tag[|OPEN|] == attribute[0] == 32 && tag[|OPEN| - 1] == 104;
    assert tag[|OPEN|..|OPEN| + |attribute|] == attribute;
    IndexOfInert(tag, GREATER, |OPEN|, attribute);
    AttributeOfPrinted(path);
    DecodeEscape(path);
  }
}
