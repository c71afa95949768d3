/**
 Redacting credentials in a parsed JSON value, in place and with bounded work
 (packages/browser-core/src/console-diagnostic-sanitizer.ts).
 */
module Redaction {
  import opened Prelude

  const MAX_DEPTH := 12
  const MAX_NODES := 1000
  const REDACTED := "[REDACTED]"

  const SENSITIVE_KEYS := {"authorization", "cookie", "setcookie", "accesstoken", "refreshtoken", "idtoken", "apikey",
                           "clientsecret", "password"}

  /** toLowerCase, as far as it can produce the letters of the keys above. */
  function Lower(c: char): char {
    if 'A' <= c <= 'Z' then (c as int + 32) as char else if c == '\U{212A}' then 'k' else c
  }

  function Normalize(key: string): string {
    if key == "" then ""
    else (if key[0] == '-' || key[0] == '_' then "" else [Lower(key[0])]) + Normalize(key[1..])
  }

  predicate Sensitive(key: string) {
    Normalize(key) in SENSITIVE_KEYS
  }

  /** A lower-case letter, its capital, or for k also the Kelvin sign, which is lowered to it. */
  predicate IsLetter(c: char, letter: char) {
    c == letter || (c as int + 32 == letter as int && 'A' <= c <= 'Z') || (c == '\U{212A}' && letter == 'k')
  }

  predicate IsWord(word: string) {
    forall i | 0 <= i < |word| :: 'a' <= word[i] <= 'z'
  }

  /** `key` is `word` in letters of either case, with dashes and underscores anywhere. */
  predicate Spells(key: string, word: string) {
    if key == "" then word == ""
    else if key[0] == '-' || key[0] == '_' then Spells(key[1..], word)
    else word != "" && IsLetter(key[0], word[0]) && Spells(key[1..], word[1..])
  }

  lemma LowerIs(c: char, letter: char)
    requires 'a' <= letter <= 'z'
    ensures Lower(c) == letter <==> IsLetter(c, letter)
  {
  }

  lemma {:induction false} NormalizesTo(key: string, word: string)
    requires IsWord(word)
    ensures Normalize(key) == word <==> Spells(key, word)
  {
    if key != "" {
      if key[0] == '-' || key[0] == '_' {
        assert [] + Normalize(key[1..]) == Normalize(key[1..]);
        NormalizesTo(key[1..], word);
      } else if word != "" {
        LowerIs(key[0], word[0]);
        NormalizesTo(key[1..], word[1..]);
        assert word == [word[0]] + word[1..];
        assert ([Lower(key[0])] + Normalize(key[1..]))[1..] == Normalize(key[1..]);
      }
    }
  }

  lemma KeysAreWords()
    ensures forall word | word in SENSITIVE_KEYS :: IsWord(word)
  {
  }

  /** A key is sensitive exactly when it spells one of the words, in either case and with any dashes or underscores. */
  lemma SensitiveIffSpelled(key: string)
    ensures Sensitive(key) <==> exists word | word in SENSITIVE_KEYS :: Spells(key, word)
  {
    KeysAreWords();
    forall word | word in SENSITIVE_KEYS ensures Normalize(key) == word <==> Spells(key, word) {
      NormalizesTo(key, word);
    }
  }

  // ---- Values as the program reads them ----

  datatype Json = Leaf(text: string) | List(items: seq<Json>) | Record(fields: seq<Field>)
  datatype Field = Field(key: string, value: Json)

  /** What redaction should do: every sensitive key at every depth, and nothing else. */
  function Redact(j: Json): Json {
    match j
    case Leaf(_) => j
    case List(items) => List(RedactItems(items))
    case Record(fields) => Record(RedactFields(fields))
  }

  function RedactItems(items: seq<Json>): seq<Json> {
    if items == [] then [] else [Redact(items[0])] + RedactItems(items[1..])
  }

  function RedactFields(fields: seq<Field>): seq<Field> {
    if fields == [] then []
    else
      var value := if Sensitive(fields[0].key) then Leaf(REDACTED) else Redact(fields[0].value);
      [Field(fields[0].key, value)] + RedactFields(fields[1..])
  }

  /** Objects and arrays that are not below a sensitive key. */
  function Containers(j: Json): nat {
    match j
    case Leaf(_) => 0
    case List(items) => 1 + ContainersInItems(items)
    case Record(fields) => 1 + ContainersInFields(fields)
  }

  function ContainersInItems(items: seq<Json>): nat {
    if items == [] then 0 else Containers(items[0]) + ContainersInItems(items[1..])
  }

  function ContainersInFields(fields: seq<Field>): nat {
    if fields == [] then 0
    else (if Sensitive(fields[0].key) then 0 else Containers(fields[0].value)) + ContainersInFields(fields[1..])
  }

  /** No object or array outside sensitive keys is nested deeper than `limit`. */
  predicate WithinDepth(j: Json, limit: int) {
    match j
    case Leaf(_) => true
    case List(items) => limit >= 0 && ItemsWithinDepth(items, limit - 1)
    case Record(fields) => limit >= 0 && FieldsWithinDepth(fields, limit - 1)
  }

  predicate ItemsWithinDepth(items: seq<Json>, limit: int) {
    items == [] || (WithinDepth(items[0], limit) && ItemsWithinDepth(items[1..], limit))
  }

  predicate FieldsWithinDepth(fields: seq<Field>, limit: int) {
    fields == [] ||
      ((Sensitive(fields[0].key) || WithinDepth(fields[0].value, limit)) && FieldsWithinDepth(fields[1..], limit))
  }

  // ---- Values as they are stored: containers that refer to each other ----

  datatype Slot = Text(text: string) | Ref(at: nat)
  datatype Member = Member(key: string, slot: Slot)
  datatype Container = Arr(slots: seq<Slot>) | Obj(members: seq<Member>)

  type Store = seq<Container>

  predicate Inside(slot: Slot, from: nat, size: nat) {
    slot.Ref? ==> from <= slot.at < size
  }

  /** Containers only refer to later ones, as in a freshly parsed text. */
  ghost predicate Forward(h: Store) {
    forall i | 0 <= i < |h| :: ContainerForward(h[i], i, |h|)
  }

  ghost predicate ContainerForward(c: Container, i: nat, size: nat) {
    match c
    case Arr(slots) => forall k | 0 <= k < |slots| :: Inside(slots[k], i + 1, size)
    case Obj(members) => forall k | 0 <= k < |members| :: Inside(members[k].slot, i + 1, size)
  }

  ghost function Read(h: Store, slot: Slot): Json
    requires Forward(h) && Inside(slot, 0, |h|)
    decreases if slot.Ref? then |h| - slot.at else 0, 1, 0
  {
    match slot
    case Text(text) => Leaf(text)
    case Ref(i) =>
      match h[i]
      case Arr(slots) => List(ReadSlots(h, i, slots))
      case Obj(members) => Record(ReadMembers(h, i, members))
  }

  ghost function ReadSlots(h: Store, i: nat, slots: seq<Slot>): seq<Json>
    requires Forward(h) && i < |h| && forall k | 0 <= k < |slots| :: Inside(slots[k], i + 1, |h|)
    decreases |h| - i - 1, 2, |slots|
  {
    if slots == [] then []
    else
      assert Inside(slots[0], i + 1, |h|);
      [Read(h, slots[0])] + ReadSlots(h, i, slots[1..])
  }

  ghost function ReadMembers(h: Store, i: nat, members: seq<Member>): seq<Field>
    requires Forward(h) && i < |h| && forall k | 0 <= k < |members| :: Inside(members[k].slot, i + 1, |h|)
    decreases |h| - i - 1, 2, |members|
  {
    if members == [] then []
    else
      assert Inside(members[0].slot, i + 1, |h|);
      [Field(members[0].key, Read(h, members[0].slot))] + ReadMembers(h, i, members[1..])
  }

  // ---- One container at a time ----

  function RedactMembers(members: seq<Member>): (r: seq<Member>)
    ensures |r| == |members|
    ensures forall k | 0 <= k < |r| ::
      r[k] == if Sensitive(members[k].key) then Member(members[k].key, Text(REDACTED)) else members[k]
  {
    seq(|members|, k requires 0 <= k < |members| =>
      if Sensitive(members[k].key) then Member(members[k].key, Text(REDACTED)) else members[k])
  }

  function RedactLocal(c: Container): Container {
    if c.Arr? then c else Obj(RedactMembers(c.members))
  }

  /** The containers a container leads to outside sensitive keys, in order. */
  function SlotRefs(slots: seq<Slot>): seq<nat> {
    if slots == [] then [] else (if slots[0].Ref? then [slots[0].at] else []) + SlotRefs(slots[1..])
  }

  function MemberRefs(members: seq<Member>): seq<nat> {
    if members == [] then []
    else
      (if !Sensitive(members[0].key) && members[0].slot.Ref? then [members[0].slot.at] else []) +
      MemberRefs(members[1..])
  }

  function Children(c: Container): seq<nat> {
    match c
    case Arr(slots) => SlotRefs(slots)
    case Obj(members) => MemberRefs(members)
  }

  ghost predicate RefsInside(refs: seq<nat>, from: nat, size: nat) {
    forall k | 0 <= k < |refs| :: from <= refs[k] < size
  }

  lemma {:induction false} SlotRefsInside(slots: seq<Slot>, from: nat, size: nat)
    requires forall k | 0 <= k < |slots| :: Inside(slots[k], from, size)
    ensures RefsInside(SlotRefs(slots), from, size)
  {
    if slots != [] {
      assert Inside(slots[0], from, size);
      SlotRefsInside(slots[1..], from, size);
    }
  }

  lemma {:induction false} MemberRefsInside(members: seq<Member>, from: nat, size: nat)
    requires forall k | 0 <= k < |members| :: Inside(members[k].slot, from, size)
    ensures RefsInside(MemberRefs(members), from, size)
  {
    if members != [] {
      assert Inside(members[0].slot, from, size);
      MemberRefsInside(members[1..], from, size);
    }
  }

  /** Redacting a container leaves the same containers to visit. */
  lemma {:induction false} RedactedRefs(members: seq<Member>)
    ensures MemberRefs(RedactMembers(members)) == MemberRefs(members)
  {
    if members != [] {
      RedactedRefs(members[1..]);
      assert RedactMembers(members)[1..] == RedactMembers(members[1..]);
    }
  }

  // ---- What remains to be visited, counted ----

  /** Containers below the references of a list. */
  ghost function Load(h: Store, refs: seq<nat>): nat
    requires Forward(h) && RefsInside(refs, 0, |h|)
  {
    if refs == [] then 0 else Load(h, refs[..|refs| - 1]) + Containers(Read(h, Ref(refs[|refs| - 1])))
  }

  lemma {:induction false} LoadAppend(h: Store, a: seq<nat>, b: seq<nat>)
    requires Forward(h) && RefsInside(a, 0, |h|) && RefsInside(b, 0, |h|)
    ensures RefsInside(a + b, 0, |h|) && Load(h, a + b) == Load(h, a) + Load(h, b)
  {
    if b == [] {
      assert a + b == a;
    } else {
      LoadAppend(h, a, b[..|b| - 1]);
      assert (a + b)[..|a + b| - 1] == a + b[..|b| - 1];
    }
  }

  lemma {:induction false} SlotLoad(h: Store, i: nat, slots: seq<Slot>)
    requires Forward(h) && i < |h| && forall k | 0 <= k < |slots| :: Inside(slots[k], i + 1, |h|)
    ensures RefsInside(SlotRefs(slots), 0, |h|)
    ensures ContainersInItems(ReadSlots(h, i, slots)) == Load(h, SlotRefs(slots))
  {
    SlotRefsInside(slots, i + 1, |h|);
    if slots != [] {
      assert Inside(slots[0], i + 1, |h|);
      SlotLoad(h, i, slots[1..]);
      assert ReadSlots(h, i, slots)[1..] == ReadSlots(h, i, slots[1..]);
      if slots[0].Ref? {
        LoadAppend(h, [slots[0].at], SlotRefs(slots[1..]));
        assert [slots[0].at][..0] == [];
      } else {
        assert SlotRefs(slots) == SlotRefs(slots[1..]);
      }
    }
  }

  lemma {:induction false} MemberLoad(h: Store, i: nat, members: seq<Member>)
    requires Forward(h) && i < |h| && forall k | 0 <= k < |members| :: Inside(members[k].slot, i + 1, |h|)
    ensures RefsInside(MemberRefs(members), 0, |h|)
    ensures ContainersInFields(ReadMembers(h, i, members)) == Load(h, MemberRefs(members))
  {
    MemberRefsInside(members, i + 1, |h|);
    if members != [] {
      assert Inside(members[0].slot, i + 1, |h|);
      MemberLoad(h, i, members[1..]);
      assert ReadMembers(h, i, members)[1..] == ReadMembers(h, i, members[1..]);
      if !Sensitive(members[0].key) && members[0].slot.Ref? {
        LoadAppend(h, [members[0].slot.at], MemberRefs(members[1..]));
        assert [members[0].slot.at][..0] == [];
      } else {
        assert MemberRefs(members) == MemberRefs(members[1..]);
      }
    }
  }

  /** A container counts one more than its children. */
  lemma ContainerLoad(h: Store, i: nat)
    requires Forward(h) && i < |h|
    ensures RefsInside(Children(h[i]), 0, |h|) && Containers(Read(h, Ref(i))) == 1 + Load(h, Children(h[i]))
  {
    assert ContainerForward(h[i], i, |h|);
    match h[i]
    case Arr(slots) => SlotLoad(h, i, slots);
    case Obj(members) => MemberLoad(h, i, members);
  }

  ghost predicate AllWithin(h: Store, refs: seq<nat>, limit: int)
    requires Forward(h) && RefsInside(refs, 0, |h|)
  {
    forall k | 0 <= k < |refs| :: WithinDepth(Read(h, Ref(refs[k])), limit)
  }

  lemma AllWithinCons(h: Store, first: nat, rest: seq<nat>, limit: int)
    requires Forward(h) && first < |h| && RefsInside(rest, 0, |h|)
    ensures RefsInside([first] + rest, 0, |h|)
    ensures AllWithin(h, [first] + rest, limit) <==>
      WithinDepth(Read(h, Ref(first)), limit) && AllWithin(h, rest, limit)
  {
    var all := [first] + rest;
    assert all[0] == first;
    assert forall k | 0 <= k < |rest| :: all[k + 1] == rest[k];
  }

  lemma {:induction false} SlotDepth(h: Store, i: nat, slots: seq<Slot>, limit: int)
    requires Forward(h) && i < |h| && forall k | 0 <= k < |slots| :: Inside(slots[k], i + 1, |h|)
    ensures RefsInside(SlotRefs(slots), 0, |h|)
    ensures ItemsWithinDepth(ReadSlots(h, i, slots), limit) <==> AllWithin(h, SlotRefs(slots), limit)
  {
    SlotRefsInside(slots, i + 1, |h|);
    if slots != [] {
      assert Inside(slots[0], i + 1, |h|);
      SlotDepth(h, i, slots[1..], limit);
      assert ReadSlots(h, i, slots)[1..] == ReadSlots(h, i, slots[1..]);
      if slots[0].Ref? {
        AllWithinCons(h, slots[0].at, SlotRefs(slots[1..]), limit);
      } else {
        assert SlotRefs(slots) == SlotRefs(slots[1..]);
      }
    }
  }

  lemma {:induction false} MemberDepth(h: Store, i: nat, members: seq<Member>, limit: int)
    requires Forward(h) && i < |h| && forall k | 0 <= k < |members| :: Inside(members[k].slot, i + 1, |h|)
    ensures RefsInside(MemberRefs(members), 0, |h|)
    ensures FieldsWithinDepth(ReadMembers(h, i, members), limit) <==> AllWithin(h, MemberRefs(members), limit)
  {
    MemberRefsInside(members, i + 1, |h|);
    if members != [] {
      assert Inside(members[0].slot, i + 1, |h|);
      MemberDepth(h, i, members[1..], limit);
      assert ReadMembers(h, i, members)[1..] == ReadMembers(h, i, members[1..]);
      if !Sensitive(members[0].key) && members[0].slot.Ref? {
        AllWithinCons(h, members[0].slot.at, MemberRefs(members[1..]), limit);
      } else {
        assert MemberRefs(members) == MemberRefs(members[1..]);
      }
    }
  }

  lemma ContainerDepth(h: Store, i: nat, limit: int)
    requires Forward(h) && i < |h|
    ensures RefsInside(Children(h[i]), 0, |h|)
    ensures WithinDepth(Read(h, Ref(i)), limit) <==> limit >= 0 && AllWithin(h, Children(h[i]), limit - 1)
  {
    assert ContainerForward(h[i], i, |h|);
    match h[i]
    case Arr(slots) => SlotDepth(h, i, slots, limit - 1);
    case Obj(members) => MemberDepth(h, i, members, limit - 1);
  }

  // ---- Redacting every visited container redacts what is read ----

  /** `done` containers are redacted, and everything they lead to outside sensitive keys is done too. */
  ghost predicate Closed(before: Store, after: Store, done: set<nat>) {
    && |after| == |before|
    && forall i | i in done ::
      && i < |before| && after[i] == RedactLocal(before[i])
      && forall k | 0 <= k < |Children(before[i])| :: Children(before[i])[k] in done
  }

  ghost predicate EachAsIsOrRedacted(before: Store, after: Store) {
    |after| == |before| && forall i | 0 <= i < |after| :: after[i] == before[i] || after[i] == RedactLocal(before[i])
  }

  lemma StaysForward(before: Store, after: Store)
    requires Forward(before) && EachAsIsOrRedacted(before, after)
    ensures Forward(after)
  {
    forall i | 0 <= i < |after| ensures ContainerForward(after[i], i, |after|) {
      assert ContainerForward(before[i], i, |before|);
    }
  }

  lemma {:induction false} ReadRedacted(before: Store, after: Store, done: set<nat>, i: nat)
    requires Forward(before) && Forward(after) && Closed(before, after, done) && i in done
    ensures Read(after, Ref(i)) == Redact(Read(before, Ref(i)))
    decreases |before| - i, 1, 0
  {
    assert ContainerForward(before[i], i, |before|) && ContainerForward(after[i], i, |after|);
    match before[i]
    case Arr(slots) =>
      assert Children(before[i]) == SlotRefs(slots);
      SlotsRedacted(before, after, done, i, slots);
    case Obj(members) =>
      assert Children(before[i]) == MemberRefs(members);
      MembersRedacted(before, after, done, i, members);
  }

  lemma {:induction false} SlotsRedacted(before: Store, after: Store, done: set<nat>, i: nat, slots: seq<Slot>)
    requires Forward(before) && Forward(after) && Closed(before, after, done) && i < |before|
    requires forall k | 0 <= k < |slots| :: Inside(slots[k], i + 1, |before|)
    requires forall k | 0 <= k < |SlotRefs(slots)| :: SlotRefs(slots)[k] in done
    ensures ReadSlots(after, i, slots) == RedactItems(ReadSlots(before, i, slots))
    decreases |before| - i - 1, 2, |slots|
  {
    if slots != [] {
      assert Inside(slots[0], i + 1, |before|);
      var rest := SlotRefs(slots[1..]);
      forall k | 0 <= k < |rest| ensures rest[k] in done {
        assert rest[k] == SlotRefs(slots)[if slots[0].Ref? then k + 1 else k];
      }
      SlotsRedacted(before, after, done, i, slots[1..]);
      if slots[0].Ref? {
        assert SlotRefs(slots)[0] == slots[0].at;
        ReadRedacted(before, after, done, slots[0].at);
      }
    }
  }

  lemma {:induction false} MembersRedacted(before: Store, after: Store, done: set<nat>, i: nat, members: seq<Member>)
    requires Forward(before) && Forward(after) && Closed(before, after, done) && i < |before|
    requires forall k | 0 <= k < |members| :: Inside(members[k].slot, i + 1, |before|)
    requires forall k | 0 <= k < |MemberRefs(members)| :: MemberRefs(members)[k] in done
    ensures forall k | 0 <= k < |members| :: Inside(RedactMembers(members)[k].slot, i + 1, |after|)
    ensures ReadMembers(after, i, RedactMembers(members)) == RedactFields(ReadMembers(before, i, members))
    decreases |before| - i - 1, 2, |members|
  {
    forall k | 0 <= k < |members| ensures Inside(RedactMembers(members)[k].slot, i + 1, |after|) {
      assert Inside(members[k].slot, i + 1, |before|);
    }
    if members != [] {
      assert Inside(members[0].slot, i + 1, |before|);
      var rest := MemberRefs(members[1..]);
      var skips := !Sensitive(members[0].key) && members[0].slot.Ref?;
      forall k | 0 <= k < |rest| ensures rest[k] in done {
        assert rest[k] == MemberRefs(members)[if skips then k + 1 else k];
      }
      MembersRedacted(before, after, done, i, members[1..]);
      assert RedactMembers(members)[1..] == RedactMembers(members[1..]);
      if skips {
        assert MemberRefs(members)[0] == members[0].slot.at;
        ReadRedacted(before, after, done, members[0].slot.at);
      }
    }
  }

  // ---- The traversal with an explicit stack ----

  datatype Pending = Pending(at: nat, depth: nat)

  function AtDepth(refs: seq<nat>, depth: nat): (r: seq<Pending>)
    ensures |r| == |refs| && forall k | 0 <= k < |r| :: r[k] == Pending(refs[k], depth)
  {
    seq(|refs|, k requires 0 <= k < |refs| => Pending(refs[k], depth))
  }

  lemma {:induction false} SlotRefsSnoc(slots: seq<Slot>, k: nat)
    requires k < |slots|
    ensures SlotRefs(slots[..k + 1]) == SlotRefs(slots[..k]) + if slots[k].Ref? then [slots[k].at] else []
  {
    if k > 0 {
      assert slots[..k + 1][1..] == slots[1..][..k] && slots[..k][1..] == slots[1..][..k - 1];
      SlotRefsSnoc(slots[1..], k - 1);
    }
  }

  lemma {:induction false} MemberRefsSnoc(members: seq<Member>, k: nat)
    requires k < |members|
    ensures MemberRefs(members[..k + 1]) == MemberRefs(members[..k]) +
      if !Sensitive(members[k].key) && members[k].slot.Ref? then [members[k].slot.at] else []
  {
    if k > 0 {
      assert members[..k + 1][1..] == members[1..][..k] && members[..k][1..] == members[1..][..k - 1];
      MemberRefsSnoc(members[1..], k - 1);
    }
  }

  /** Overwrites the sensitive members of one container and collects the containers to visit next. */
  method VisitContainer(heap: array<Container>, i: nat) returns (refs: seq<nat>)
    requires i < heap.Length
    modifies heap
    ensures heap[..] == old(heap[..])[i := RedactLocal(old(heap[i]))]
    ensures refs == Children(old(heap[i]))
  {
    refs := [];
    match heap[i]
    case Arr(slots) =>
      var k := 0;
      while k < |slots|
        invariant 0 <= k <= |slots| && refs == SlotRefs(slots[..k])
        modifies {}
      {
        SlotRefsSnoc(slots, k);
        if slots[k].Ref? {
          refs := refs + [slots[k].at];
        }
        k := k + 1;
      }
      assert slots[..k] == slots;
    case Obj(members) =>
      refs := VisitMembers(heap, i, members);
  }

  method VisitMembers(heap: array<Container>, i: nat, members: seq<Member>) returns (refs: seq<nat>)
    requires i < heap.Length && heap[i] == Obj(members)
    modifies heap
    ensures heap[..] == old(heap[..])[i := Obj(RedactMembers(members))]
    ensures refs == MemberRefs(members)
  {
    refs := [];
    ghost var before, redacted := heap[..], RedactMembers(members);
    var current := members;
    var k := 0;
    while k < |members|
      invariant 0 <= k <= |members| && refs == MemberRefs(members[..k])
      invariant |current| == |members| && heap[..] == before[i := Obj(current)]
      invariant forall j | 0 <= j < |members| :: current[j] == if j < k then redacted[j] else members[j]
    {
      MemberRefsSnoc(members, k);
      if Sensitive(members[k].key) {
        current := current[k := Member(members[k].key, Text(REDACTED))];
        heap[i] := Obj(current);
      } else if members[k].slot.Ref? {
        refs := refs + [members[k].slot.at];
      }
      k := k + 1;
    }
    assert members[..k] == members && current == redacted;
  }

  ghost predicate StackInside(stack: seq<Pending>, size: nat) {
    forall k | 0 <= k < |stack| :: stack[k].at < size
  }

  ghost function StackLoad(h: Store, stack: seq<Pending>): nat
    requires Forward(h) && StackInside(stack, |h|)
  {
    if stack == [] then 0 else StackLoad(h, stack[..|stack| - 1]) + Containers(Read(h, Ref(stack[|stack| - 1].at)))
  }

  ghost predicate PendingWithin(h: Store, p: Pending)
    requires Forward(h) && p.at < |h|
  {
    WithinDepth(Read(h, Ref(p.at)), MAX_DEPTH - p.depth)
  }

  ghost predicate StackWithin(h: Store, stack: seq<Pending>)
    requires Forward(h) && StackInside(stack, |h|)
  {
    forall k | 0 <= k < |stack| :: PendingWithin(h, stack[k])
  }

  predicate OnStack(stack: seq<Pending>, i: nat) {
    exists k | 0 <= k < |stack| :: stack[k].at == i
  }

  lemma OnLonger(a: seq<Pending>, b: seq<Pending>)
    ensures forall i: nat :: OnStack(a + b, i) <==> OnStack(a, i) || OnStack(b, i)
  {
    forall i: nat ensures OnStack(a + b, i) <==> OnStack(a, i) || OnStack(b, i) {
      if OnStack(a, i) {
        var k :| 0 <= k < |a| && a[k].at == i;
        assert (a + b)[k].at == i;
      }
      if OnStack(b, i) {
        var k :| 0 <= k < |b| && b[k].at == i;
        assert (a + b)[|a| + k].at == i;
      }
    }
  }

  lemma {:induction false} LoadOfPushed(h: Store, rest: seq<Pending>, refs: seq<nat>, depth: nat)
    requires Forward(h) && StackInside(rest, |h|) && RefsInside(refs, 0, |h|)
    ensures StackInside(rest + AtDepth(refs, depth), |h|)
    ensures StackLoad(h, rest + AtDepth(refs, depth)) == StackLoad(h, rest) + Load(h, refs)
  {
    var stack := rest + AtDepth(refs, depth);
    if refs == [] {
      assert stack == rest;
    } else {
      LoadOfPushed(h, rest, refs[..|refs| - 1], depth);
      assert stack[..|stack| - 1] == rest + AtDepth(refs[..|refs| - 1], depth);
      assert stack[|stack| - 1] == Pending(refs[|refs| - 1], depth);
    }
  }

  lemma WithinOfLonger(h: Store, a: seq<Pending>, b: seq<Pending>)
    requires Forward(h) && StackInside(a, |h|) && StackInside(b, |h|)
    ensures StackInside(a + b, |h|) && (StackWithin(h, a + b) <==> StackWithin(h, a) && StackWithin(h, b))
  {
    var all := a + b;
    if StackWithin(h, all) {
      forall k | 0 <= k < |a| ensures PendingWithin(h, a[k]) { assert all[k] == a[k]; }
      forall k | 0 <= k < |b| ensures PendingWithin(h, b[k]) { assert all[|a| + k] == b[k]; }
    }
  }

  lemma WithinOfPushed(h: Store, refs: seq<nat>, depth: nat)
    requires Forward(h) && RefsInside(refs, 0, |h|)
    ensures StackInside(AtDepth(refs, depth), |h|)
    ensures StackWithin(h, AtDepth(refs, depth)) <==> AllWithin(h, refs, MAX_DEPTH - depth)
  {
    var pushed := AtDepth(refs, depth);
    if StackWithin(h, pushed) {
      forall k | 0 <= k < |refs| ensures WithinDepth(Read(h, Ref(refs[k])), MAX_DEPTH - depth) {
        assert pushed[k] == Pending(refs[k], depth);
      }
    }
  }

  /** What has been visited is redacted, and leads only to what has been or will be visited. */
  ghost predicate Progress(before: Store, after: Store, done: set<nat>, stack: seq<Pending>) {
    forall i | i in done ::
      i < |before| && i < |after| && after[i] == RedactLocal(before[i]) &&
      forall k | 0 <= k < |Children(before[i])| ::
        Children(before[i])[k] in done || OnStack(stack, Children(before[i])[k])
  }

  /** Popping a container and pushing its children keeps the account of nodes. */
  lemma VisitKeepsLoad(h: Store, rest: seq<Pending>, top: Pending)
    requires Forward(h) && top.at < |h| && StackInside(rest, |h|)
    ensures StackInside(rest + [top], |h|)
    ensures StackLoad(h, rest + [top]) == StackLoad(h, rest) + Containers(Read(h, Ref(top.at)))
    ensures Containers(Read(h, Ref(top.at))) > 0
    ensures var next := rest + AtDepth(Children(h[top.at]), top.depth + 1);
      StackInside(next, |h|) && 1 + StackLoad(h, next) == StackLoad(h, rest + [top])
  {
    assert (rest + [top])[..|rest|] == rest;
    ContainerLoad(h, top.at);
    LoadOfPushed(h, rest, Children(h[top.at]), top.depth + 1);
  }

  lemma WithinOfTop(h: Store, rest: seq<Pending>, top: Pending)
    requires Forward(h) && top.at < |h| && StackInside(rest, |h|)
    ensures StackInside(rest + [top], |h|)
    ensures StackWithin(h, rest + [top]) <==> StackWithin(h, rest) && PendingWithin(h, top)
  {
    var one := [top];
    assert one[0] == top && forall k | 0 <= k < |one| :: one[k] == top;
    assert StackWithin(h, one) <==> PendingWithin(h, one[0]);
    WithinOfLonger(h, rest, one);
  }

  lemma WithinOfRefs(h: Store, rest: seq<Pending>, refs: seq<nat>, depth: nat)
    requires Forward(h) && RefsInside(refs, 0, |h|) && StackInside(rest, |h|)
    ensures StackInside(rest + AtDepth(refs, depth), |h|)
    ensures StackWithin(h, rest + AtDepth(refs, depth)) <==>
      StackWithin(h, rest) && AllWithin(h, refs, MAX_DEPTH - depth)
  {
    WithinOfPushed(h, refs, depth);
    WithinOfLonger(h, rest, AtDepth(refs, depth));
  }

  lemma WithinOfChildren(h: Store, rest: seq<Pending>, top: Pending)
    requires Forward(h) && top.at < |h| && StackInside(rest, |h|)
    ensures RefsInside(Children(h[top.at]), 0, |h|)
    ensures var next := rest + AtDepth(Children(h[top.at]), top.depth + 1);
      StackInside(next, |h|) &&
        (StackWithin(h, next) <==> StackWithin(h, rest) && AllWithin(h, Children(h[top.at]), MAX_DEPTH - top.depth - 1))
  {
    ContainerLoad(h, top.at);
    WithinOfRefs(h, rest, Children(h[top.at]), top.depth + 1);
  }

  /** Popping a container and pushing its children keeps the account of depths. */
  lemma VisitKeepsDepth(h: Store, rest: seq<Pending>, top: Pending)
    requires Forward(h) && top.at < |h| && StackInside(rest, |h|)
    ensures StackInside(rest + [top], |h|)
    ensures StackWithin(h, rest + [top]) <==>
      StackWithin(h, rest) && WithinDepth(Read(h, Ref(top.at)), MAX_DEPTH - top.depth)
    ensures top.depth > MAX_DEPTH ==> !WithinDepth(Read(h, Ref(top.at)), MAX_DEPTH - top.depth)
    ensures var next := rest + AtDepth(Children(h[top.at]), top.depth + 1);
      StackInside(next, |h|) && (top.depth <= MAX_DEPTH ==> (StackWithin(h, next) <==> StackWithin(h, rest + [top])))
  {
    WithinOfTop(h, rest, top);
    WithinOfChildren(h, rest, top);
    ContainerDepth(h, top.at, MAX_DEPTH - top.depth);
  }

  lemma RedactTwice(c: Container)
    ensures RedactLocal(RedactLocal(c)) == RedactLocal(c) && Children(RedactLocal(c)) == Children(c)
  {
    if c.Obj? {
      RedactedRefs(c.members);
      assert RedactMembers(RedactMembers(c.members)) == RedactMembers(c.members);
    }
  }

  lemma VisitKeepsProgress(before: Store, after: Store, next: Store, done: set<nat>, rest: seq<Pending>, top: Pending)
    requires |after| == |before| && top.at < |before| && EachAsIsOrRedacted(before, after)
    requires Progress(before, after, done, rest + [top])
    requires next == after[top.at := RedactLocal(after[top.at])]
    ensures EachAsIsOrRedacted(before, next)
    ensures Progress(before, next, done + {top.at}, rest + AtDepth(Children(before[top.at]), top.depth + 1))
  {
    var refs := Children(before[top.at]);
    var pushed := AtDepth(refs, top.depth + 1);
    OnLonger(rest, [top]);
    OnLonger(rest, pushed);
    RedactTwice(before[top.at]);
    forall k | 0 <= k < |refs| ensures OnStack(pushed, refs[k]) {
      assert pushed[k].at == refs[k];
    }
    var next' := done + {top.at};
    forall i | i in next'
      ensures i < |before| && next[i] == RedactLocal(before[i])
      ensures forall k | 0 <= k < |Children(before[i])| ::
        Children(before[i])[k] in next' || OnStack(rest + pushed, Children(before[i])[k])
    {
      forall k | 0 <= k < |Children(before[i])|
        ensures Children(before[i])[k] in next' || OnStack(rest + pushed, Children(before[i])[k])
      {
        if i != top.at {
          assert i in done;
          var child := Children(before[i])[k];
          assert child in done || OnStack(rest, child) || OnStack([top], child);
        }
      }
    }
  }

  /**
   True exactly when the value, pruned at sensitive keys, has at most 1000 containers and none nested
   deeper than 12; and then what the value reads as has every sensitive key redacted and nothing else changed.
   */
  method RedactStructuredCredentials(heap: array<Container>, value: Slot) returns (ok: bool)
    requires Forward(heap[..]) && Inside(value, 0, heap.Length)
    modifies heap
    ensures ok <==>
      Containers(old(Read(heap[..], value))) <= MAX_NODES && WithinDepth(old(Read(heap[..], value)), MAX_DEPTH)
    ensures Forward(heap[..])
    ensures ok ==> Read(heap[..], value) == Redact(old(Read(heap[..], value)))
  {
    if value.Text? {
      return true;
    }
    ok := RedactFrom(heap, value.at);
  }

  /** What holds whenever the stack is looked at. */
  ghost predicate Visiting(before: Store, after: Store, root: nat, done: set<nat>, stack: seq<Pending>, visited: nat) {
    && Forward(before) && root < |before| && EachAsIsOrRedacted(before, after)
    && StackInside(stack, |before|)
    && visited + StackLoad(before, stack) == Containers(Read(before, Ref(root)))
    && (StackWithin(before, stack) <==> WithinDepth(Read(before, Ref(root)), MAX_DEPTH))
    && Progress(before, after, done, stack)
    && (root in done || OnStack(stack, root))
  }

  lemma VisitOne(before: Store, after: Store, next: Store, root: nat, done: set<nat>, rest: seq<Pending>, top: Pending,
                 visited: nat)
    requires Visiting(before, after, root, done, rest + [top], visited)
    ensures top.at < |after| && Children(after[top.at]) == Children(before[top.at])
    ensures visited + 1 <= Containers(Read(before, Ref(root)))
    ensures top.depth > MAX_DEPTH ==> !WithinDepth(Read(before, Ref(root)), MAX_DEPTH)
    ensures top.depth <= MAX_DEPTH && next == after[top.at := RedactLocal(after[top.at])] ==>
      Visiting(before, next, root, done + {top.at}, rest + AtDepth(Children(before[top.at]), top.depth + 1),
               visited + 1)
  {
    var stack := rest + [top];
    assert stack[|rest|] == top && forall k | 0 <= k < |rest| :: stack[k] == rest[k];
    RedactTwice(before[top.at]);
    VisitKeepsLoad(before, rest, top);
    VisitKeepsDepth(before, rest, top);
    if top.depth <= MAX_DEPTH && next == after[top.at := RedactLocal(after[top.at])] {
      VisitKeepsProgress(before, after, next, done, rest, top);
      OnLonger(rest, [top]);
      OnLonger(rest, AtDepth(Children(before[top.at]), top.depth + 1));
    }
  }

  lemma VisitingStarts(h: Store, root: nat)
    requires Forward(h) && root < |h|
    ensures Visiting(h, h, root, {}, [Pending(root, 0)], 0)
  {
    var stack := [Pending(root, 0)];
    assert stack[0].at == root;
    VisitKeepsLoad(h, [], Pending(root, 0));
    VisitKeepsDepth(h, [], Pending(root, 0));
    assert [] + stack == stack;
  }

  lemma VisitingEnds(before: Store, after: Store, root: nat, done: set<nat>, visited: nat)
    requires Visiting(before, after, root, done, [], visited) && visited <= MAX_NODES
    ensures Containers(Read(before, Ref(root))) <= MAX_NODES && WithinDepth(Read(before, Ref(root)), MAX_DEPTH)
    ensures Forward(after) && Read(after, Ref(root)) == Redact(Read(before, Ref(root)))
  {
    StaysForward(before, after);
    assert Closed(before, after, done);
    ReadRedacted(before, after, done, root);
  }

  method RedactFrom(heap: array<Container>, root: nat) returns (ok: bool)
    requires Forward(heap[..]) && root < heap.Length
    modifies heap
    ensures ok <==>
      Containers(old(Read(heap[..], Ref(root)))) <= MAX_NODES && WithinDepth(old(Read(heap[..], Ref(root))), MAX_DEPTH)
    ensures Forward(heap[..])
    ensures ok ==> Read(heap[..], Ref(root)) == Redact(old(Read(heap[..], Ref(root))))
  {
    ghost var before := heap[..];
    ghost var done: set<nat> := {};
    var stack := [Pending(root, 0)];
    var visited := 0;
    VisitingStarts(before, root);
    while |stack| > 0
      invariant visited <= MAX_NODES && Visiting(before, heap[..], root, done, stack, visited)
      decreases MAX_NODES - visited
    {
      var current, rest := stack[|stack| - 1], stack[..|stack| - 1];
      assert stack == rest + [current];
      ghost var after := heap[..];
      VisitOne(before, after, after, root, done, rest, current, visited);
      visited := visited + 1;
      if visited > MAX_NODES || current.depth > MAX_DEPTH {
        StaysForward(before, heap[..]);
        return false;
      }
      var refs := VisitContainer(heap, current.at);
      VisitOne(before, after, heap[..], root, done, rest, current, visited - 1);
      done := done + {current.at};
      stack := rest + AtDepth(refs, current.depth + 1);
    }
    VisitingEnds(before, heap[..], root, done, visited);
    return true;
  }
}
