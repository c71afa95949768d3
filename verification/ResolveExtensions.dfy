/** The load list of a profile: base and additions after its overlay (packages/agent-runtime/src/resolve.ts). */
module ResolveExtensions {
  import opened Prelude

  /** `body` stands for what the extension contributes. */
  datatype Extension = Extension(id: string, body: nat)

  datatype Entry = Entry(target: string, source: string)

  datatype Overlay = Overlay(disable: seq<string>, enable: seq<string>, replace: seq<Entry>)

  datatype Error =
    | DuplicateInPool(id: string)
    | DisablesNotInBase(id: string)
    | EnablesDisabled(id: string)
    | EnablesNotInAdditions(id: string)
    | ReplacesMissing(id: string)
    | SourceNotInPool(id: string)
    | DuplicateInResult(id: string)

  datatype Result<+T> = Ok(value: T) | Err(error: Error)

  // ---- Lists of extensions ----

  predicate HasId(s: seq<Extension>, id: string) {
    exists e :: e in s && e.id == id
  }

  ghost predicate DistinctIds(s: seq<Extension>) {
    forall i, j :: 0 <= i < j < |s| ==> s[i].id != s[j].id
  }

  function Find(s: seq<Extension>, id: string): (r: Option<Extension>)
    ensures r.Some? ==> r.value in s && r.value.id == id
  {
    if s == [] then None else if s[0].id == id then Some(s[0]) else Find(s[1..], id)
  }

  lemma {:induction false} FindsTheOne(s: seq<Extension>, e: Extension)
    requires DistinctIds(s) && e in s
    ensures Find(s, e.id) == Some(e)
  {
    if s[0].id != e.id {
      assert s == [s[0]] + s[1..];
      FindsTheOne(s[1..], e);
    } else {
      var i :| 0 <= i < |s| && s[i] == e;
      assert i == 0;
    }
  }

  lemma {:induction false} FindsAny(s: seq<Extension>, id: string)
    ensures Find(s, id).Some? <==> HasId(s, id)
  {
    if s != [] {
      assert s == [s[0]] + s[1..];
      FindsAny(s[1..], id);
    }
  }

  // ---- What an overlay makes of the lists ----

  function NotIn(ids: seq<string>): Extension -> bool {
    (e: Extension) => e.id !in ids
  }

  function IdIn(ids: seq<string>): Extension -> bool {
    (e: Extension) => e.id in ids
  }

  /** The base without the disabled extensions, then the enabled additions in the additions' order. */
  function Selected(base: seq<Extension>, additions: seq<Extension>, overlay: Overlay): seq<Extension> {
    Filter(base, NotIn(overlay.disable)) + Filter(additions, IdIn(overlay.enable))
  }

  function SourceOf(entries: seq<Entry>, id: string): Option<string> {
    if entries == [] then None
    else if entries[|entries| - 1].target == id then Some(entries[|entries| - 1].source)
    else SourceOf(entries[..|entries| - 1], id)
  }

  /** Every extension is replaced by what its own id is mapped to, all at once. */
  function Renew(pool: seq<Extension>, entries: seq<Entry>, e: Extension): Extension {
    var source := SourceOf(entries, e.id);
    if source.Some? && Find(pool, source.value).Some? then Find(pool, source.value).value else e
  }

  function RenewAll(pool: seq<Extension>, entries: seq<Entry>, s: seq<Extension>): (r: seq<Extension>)
    ensures |r| == |s| && forall i | 0 <= i < |s| :: r[i] == Renew(pool, entries, s[i])
  {
    seq(|s|, i requires 0 <= i < |s| => Renew(pool, entries, s[i]))
  }

  function Final(base: seq<Extension>, additions: seq<Extension>, overlay: Overlay): seq<Extension> {
    RenewAll(base + additions, overlay.replace, Selected(base, additions, overlay))
  }

  ghost predicate OverlayOk(base: seq<Extension>, additions: seq<Extension>, overlay: Overlay) {
    && (forall id | id in overlay.disable :: HasId(base, id))
    && (forall id | id in overlay.enable :: id !in overlay.disable && HasId(additions, id))
    && (forall e | e in overlay.replace ::
      HasId(Selected(base, additions, overlay), e.target) && HasId(base + additions, e.source))
    && DistinctIds(Final(base, additions, overlay))
  }

  // ---- The steps ----

  method CheckPool(all: seq<Extension>) returns (r: Result<map<string, Extension>>)
    ensures r.Ok? <==> DistinctIds(all)
    ensures r.Ok? ==> r.value.Keys == (set e | e in all :: e.id) && forall e | e in all :: r.value[e.id] == e
    ensures r.Err? ==> r.error.DuplicateInPool?
  {
    var pool: map<string, Extension> := map[];
    for i := 0 to |all|
      invariant DistinctIds(all[..i])
      invariant pool.Keys == set e | e in all[..i] :: e.id
      invariant forall e | e in all[..i] :: pool[e.id] == e
    {
      if all[i].id in pool {
        var e :| e in all[..i] && e.id == all[i].id;
        return Err(DuplicateInPool(all[i].id));
      }
      pool := pool[all[i].id := all[i]];
      assert all[..i + 1] == all[..i] + [all[i]];
    }
    assert all[..|all|] == all;
    return Ok(pool);
  }

  method Disable(base: seq<Extension>, disable: seq<string>) returns (r: Result<seq<Extension>>)
    ensures r.Ok? <==> forall id | id in disable :: HasId(base, id)
    ensures r.Ok? ==> r.value == Filter(base, NotIn(disable))
    ensures r.Err? ==> r.error.DisablesNotInBase? && r.error.id in disable && !HasId(base, r.error.id)
  {
    var result := base;
    FilterAll(base, NotIn(disable[..0]));
    for i := 0 to |disable|
      invariant result == Filter(base, NotIn(disable[..i]))
      invariant forall id | id in disable[..i] :: HasId(base, id)
    {
      if !HasId(base, disable[i]) {
        return Err(DisablesNotInBase(disable[i]));
      }
      assert disable[..i + 1] == disable[..i] + [disable[i]];
      FilterTwice(base, NotIn(disable[..i]), NotIn([disable[i]]), NotIn(disable[..i + 1]));
      result := Filter(result, NotIn([disable[i]]));
    }
    assert disable[..|disable|] == disable;
    return Ok(result);
  }

  method CheckEnable(additions: seq<Extension>, overlay: Overlay) returns (r: Result<()>)
    ensures r.Ok? <==> forall id | id in overlay.enable :: id !in overlay.disable && HasId(additions, id)
    ensures r.Err? ==> r.error.id in overlay.enable
    ensures r.Err? ==>
      (r.error.EnablesDisabled? && r.error.id in overlay.disable) ||
        (r.error.EnablesNotInAdditions? && !HasId(additions, r.error.id))
  {
    for i := 0 to |overlay.enable|
      invariant forall id | id in overlay.enable[..i] :: id !in overlay.disable && HasId(additions, id)
    {
      var id := overlay.enable[i];
      if id in overlay.disable {
        return Err(EnablesDisabled(id));
      }
      if !HasId(additions, id) {
        return Err(EnablesNotInAdditions(id));
      }
    }
    return Ok(());
  }

  method Append(result: seq<Extension>, additions: seq<Extension>, enable: seq<string>) returns (r: seq<Extension>)
    ensures r == result + Filter(additions, IdIn(enable))
  {
    r := result;
    for i := 0 to |additions|
      invariant r == result + Filter(additions[..i], IdIn(enable))
    {
      FilterSnoc(additions, i, IdIn(enable));
      if additions[i].id in enable {
        r := r + [additions[i]];
      }
    }
    assert additions[..|additions|] == additions;
  }

  /** The replacement for every target. */
  ghost predicate IsReplacement(pool: map<string, Extension>, entries: seq<Entry>,
                                replacements: map<string, Extension>) {
    forall id :: if SourceOf(entries, id).Some? && SourceOf(entries, id).value in pool
                 then id in replacements && replacements[id] == pool[SourceOf(entries, id).value]
                 else id !in replacements
  }

  method CollectReplacements(pool: map<string, Extension>, result: seq<Extension>, entries: seq<Entry>)
    returns (r: Result<map<string, Extension>>)
    ensures r.Ok? <==> forall e | e in entries :: HasId(result, e.target) && e.source in pool
    ensures r.Ok? ==> IsReplacement(pool, entries, r.value)
    ensures r.Err? ==>
      (r.error.ReplacesMissing? && !HasId(result, r.error.id)) || (r.error.SourceNotInPool? && r.error.id !in pool)
  {
    var replacements: map<string, Extension> := map[];
    for i := 0 to |entries|
      invariant forall e | e in entries[..i] :: HasId(result, e.target) && e.source in pool
      invariant IsReplacement(pool, entries[..i], replacements)
    {
      var entry := entries[i];
      if !HasId(result, entry.target) {
        return Err(ReplacesMissing(entry.target));
      }
      if entry.source !in pool {
        return Err(SourceNotInPool(entry.source));
      }
      assert entries[..i + 1][..i] == entries[..i] && entries[..i + 1][i] == entry;
      replacements := replacements[entry.target := pool[entry.source]];
    }
    assert entries[..|entries|] == entries;
    return Ok(replacements);
  }

  method CheckFinal(result: seq<Extension>) returns (r: Result<seq<Extension>>)
    ensures r.Ok? <==> DistinctIds(result)
    ensures r.Ok? ==> r.value == result
    ensures r.Err? ==> r.error.DuplicateInResult?
  {
    var finalIds: set<string> := {};
    for i := 0 to |result|
      invariant DistinctIds(result[..i])
      invariant finalIds == set e | e in result[..i] :: e.id
    {
      if result[i].id in finalIds {
        var e :| e in result[..i] && e.id == result[i].id;
        return Err(DuplicateInResult(result[i].id));
      }
      finalIds := finalIds + {result[i].id};
      assert result[..i + 1] == result[..i] + [result[i]];
    }
    assert result[..|result|] == result;
    return Ok(result);
  }

  method Replace(pool: map<string, Extension>, result: seq<Extension>, entries: seq<Entry>, ghost all: seq<Extension>)
    returns (r: Result<seq<Extension>>)
    requires DistinctIds(all) && pool.Keys == (set e | e in all :: e.id) && forall e | e in all :: pool[e.id] == e
    ensures r.Ok? <==> forall e | e in entries :: HasId(result, e.target) && HasId(all, e.source)
    ensures r.Ok? ==> r.value == RenewAll(all, entries, result)
    ensures r.Err? ==>
      (r.error.ReplacesMissing? && !HasId(result, r.error.id)) || (r.error.SourceNotInPool? && !HasId(all, r.error.id))
  {
    forall id ensures id in pool <==> HasId(all, id) {}
    var replacements := CollectReplacements(pool, result, entries);
    if replacements.Err? {
      return Err(replacements.error);
    }
    var renewed := seq(|result|, i requires 0 <= i < |result| =>
      if result[i].id in replacements.value then replacements.value[result[i].id] else result[i]);
    forall i | 0 <= i < |result| ensures renewed[i] == Renew(all, entries, result[i]) {
      PoolFinds(pool, all, entries, result[i]);
    }
    return Ok(renewed);
  }

  lemma PoolFinds(pool: map<string, Extension>, all: seq<Extension>, entries: seq<Entry>, e: Extension)
    requires DistinctIds(all) && pool.Keys == (set x | x in all :: x.id) && forall x | x in all :: pool[x.id] == x
    ensures var source := SourceOf(entries, e.id);
      Renew(all, entries, e) == if source.Some? && source.value in pool then pool[source.value] else e
  {
    var source := SourceOf(entries, e.id);
    if source.Some? {
      FindsAny(all, source.value);
      if source.value in pool {
        var x :| x in all && x.id == source.value;
        FindsTheOne(all, x);
      }
    }
  }

  method ResolveExtensions(base: seq<Extension>, additions: seq<Extension>, overlays: map<string, Overlay>,
                           profile: Option<string>)
    returns (r: Result<seq<Extension>>)
    ensures r.Ok? <==>
      DistinctIds(base + additions) &&
        (HasOverlay(overlays, profile) ==> OverlayOk(base, additions, overlays[profile.value]))
    ensures r.Ok? ==>
      r.value == (if HasOverlay(overlays, profile) then Final(base, additions, overlays[profile.value]) else base)
    ensures r.Ok? ==> DistinctIds(r.value)
  {
    var all := base + additions;
    var pool := CheckPool(all);
    if pool.Err? {
      return Err(pool.error);
    }
    if !HasOverlay(overlays, profile) {
      assert forall i | 0 <= i < |base| :: all[i] == base[i];
      return Ok(base);
    }
    r := Apply(base, additions, overlays[profile.value], pool.value);
  }

  predicate HasOverlay(overlays: map<string, Overlay>, profile: Option<string>) {
    profile.Some? && profile.value != "" && profile.value in overlays
  }

  method Apply(base: seq<Extension>, additions: seq<Extension>, overlay: Overlay, pool: map<string, Extension>)
    returns (r: Result<seq<Extension>>)
    requires var all := base + additions;
      DistinctIds(all) && pool.Keys == (set e | e in all :: e.id) && forall e | e in all :: pool[e.id] == e
    ensures r.Ok? <==> OverlayOk(base, additions, overlay)
    ensures r.Ok? ==> r.value == Final(base, additions, overlay)
  {
    var kept := Disable(base, overlay.disable);
    if kept.Err? {
      return Err(kept.error);
    }
    var enabled := CheckEnable(additions, overlay);
    if enabled.Err? {
      return Err(enabled.error);
    }
    var result := Append(kept.value, additions, overlay.enable);
    var renewed := Replace(pool, result, overlay.replace, base + additions);
    if renewed.Err? {
      return Err(renewed.error);
    }
    r := CheckFinal(renewed.value);
  }

  // ---- When an overlay resolves ----

  lemma FilterKeepsIds(s: seq<Extension>, keep: Extension -> bool)
    requires DistinctIds(s)
    ensures DistinctIds(Filter(s, keep))
  {
    FilterKeepsPairwise(s, keep, (x: Extension, y: Extension) => x.id != y.id);
  }

  lemma IdsOfParts(a: seq<Extension>, b: seq<Extension>)
    requires DistinctIds(a + b)
    ensures DistinctIds(a) && DistinctIds(b) && forall x, y | x in a && y in b :: x.id != y.id
  {
    PairwiseParts(a, b, (x: Extension, y: Extension) => x.id != y.id);
  }

  lemma SelectedDistinct(base: seq<Extension>, additions: seq<Extension>, overlay: Overlay)
    requires DistinctIds(base + additions)
    ensures DistinctIds(Selected(base, additions, overlay))
    ensures forall e | e in Selected(base, additions, overlay) :: e in base + additions
  {
    IdsOfParts(base, additions);
    FilterKeepsIds(base, NotIn(overlay.disable));
    FilterKeepsIds(additions, IdIn(overlay.enable));
    FilterMembers(base, NotIn(overlay.disable));
    FilterMembers(additions, IdIn(overlay.enable));
    var a, b := Filter(base, NotIn(overlay.disable)), Filter(additions, IdIn(overlay.enable));
    forall i, j | 0 <= i < |a| && 0 <= j < |b| ensures a[i].id != b[j].id {
      assert a[i] in base && b[j] in additions;
    }
  }

  lemma {:induction false} SourceIsEntry(entries: seq<Entry>, id: string)
    ensures SourceOf(entries, id).Some? ==>
      exists e :: e in entries && e.target == id && e.source == SourceOf(entries, id).value
    ensures SourceOf(entries, id).None? ==> forall e | e in entries :: e.target != id
  {
    if entries != [] {
      var n := |entries| - 1;
      assert entries == entries[..n] + [entries[n]];
      SourceIsEntry(entries[..n], id);
    }
  }

  function NewId(entries: seq<Entry>, id: string): string {
    if SourceOf(entries, id).Some? then SourceOf(entries, id).value else id
  }

  ghost predicate EntriesOk(all: seq<Extension>, s: seq<Extension>, entries: seq<Entry>) {
    forall e | e in entries :: HasId(s, e.target) && HasId(all, e.source)
  }

  lemma RenewedId(all: seq<Extension>, s: seq<Extension>, entries: seq<Entry>, e: Extension)
    requires EntriesOk(all, s, entries)
    ensures Renew(all, entries, e).id == NewId(entries, e.id)
    ensures SourceOf(entries, e.id).Some? ==> HasId(s, e.id)
  {
    SourceIsEntry(entries, e.id);
    if SourceOf(entries, e.id).Some? {
      FindsAny(all, SourceOf(entries, e.id).value);
    }
  }

  /** No two targets share a source, and a source that is itself to be loaded is a target too. */
  ghost predicate NoClash(s: seq<Extension>, entries: seq<Entry>) {
    && (forall a, b | a in s && b in s && a.id != b.id && SourceOf(entries, a.id).Some? ::
          SourceOf(entries, a.id) != SourceOf(entries, b.id))
    && (forall a, b | a in s && b in s && SourceOf(entries, a.id) == Some(b.id) :: SourceOf(entries, b.id).Some?)
  }

  lemma ClashIffSameId(entries: seq<Entry>, s: seq<Extension>, a: Extension, b: Extension)
    requires NoClash(s, entries) && a in s && b in s && a.id != b.id
    ensures NewId(entries, a.id) != NewId(entries, b.id)
  {
  }

  lemma RenewedIds(all: seq<Extension>, s: seq<Extension>, entries: seq<Entry>)
    requires EntriesOk(all, s, entries)
    ensures forall i | 0 <= i < |s| :: RenewAll(all, entries, s)[i].id == NewId(entries, s[i].id)
  {
    forall i | 0 <= i < |s| ensures RenewAll(all, entries, s)[i].id == NewId(entries, s[i].id) {
      RenewedId(all, s, entries, s[i]);
    }
  }

  lemma NoClashMeansDistinct(all: seq<Extension>, s: seq<Extension>, entries: seq<Entry>)
    requires DistinctIds(s) && EntriesOk(all, s, entries) && NoClash(s, entries)
    ensures DistinctIds(RenewAll(all, entries, s))
  {
    RenewedIds(all, s, entries);
    forall i, j | 0 <= i < j < |s| ensures NewId(entries, s[i].id) != NewId(entries, s[j].id) {
      ClashIffSameId(entries, s, s[i], s[j]);
    }
  }

  lemma DistinctIffNoClash(all: seq<Extension>, s: seq<Extension>, entries: seq<Entry>)
    requires DistinctIds(s) && EntriesOk(all, s, entries)
    ensures DistinctIds(RenewAll(all, entries, s)) <==> NoClash(s, entries)
  {
    if NoClash(s, entries) {
      NoClashMeansDistinct(all, s, entries);
    } else if DistinctIds(RenewAll(all, entries, s)) {
      RenewedIds(all, s, entries);
      DistinctNewIds(s, RenewAll(all, entries, s), entries);
      DistinctMeansNoClash(s, entries);
    }
  }

  lemma DistinctNewIds(s: seq<Extension>, renewed: seq<Extension>, entries: seq<Entry>)
    requires DistinctIds(renewed) && |renewed| == |s|
    requires forall i | 0 <= i < |s| :: renewed[i].id == NewId(entries, s[i].id)
    ensures forall a, b | a in s && b in s && a.id != b.id :: NewId(entries, a.id) != NewId(entries, b.id)
  {
    forall a, b | a in s && b in s && a.id != b.id ensures NewId(entries, a.id) != NewId(entries, b.id) {
      var i :| 0 <= i < |s| && s[i] == a;
      var j :| 0 <= j < |s| && s[j] == b;
      assert renewed[i].id != renewed[j].id;
    }
  }

  lemma DistinctMeansNoClash(s: seq<Extension>, entries: seq<Entry>)
    requires forall a, b | a in s && b in s && a.id != b.id :: NewId(entries, a.id) != NewId(entries, b.id)
    ensures NoClash(s, entries)
  {
    forall a, b | a in s && b in s && SourceOf(entries, a.id) == Some(b.id) ensures SourceOf(entries, b.id).Some? {
      if a.id != b.id {
        assert NewId(entries, a.id) != NewId(entries, b.id);
      }
    }
    forall a, b | a in s && b in s && a.id != b.id && SourceOf(entries, a.id).Some?
      ensures SourceOf(entries, a.id) != SourceOf(entries, b.id)
    {
      assert NewId(entries, a.id) != NewId(entries, b.id);
    }
  }

  /**
   With distinct ids to begin with, an overlay resolves exactly when it disables what is in the base, enables
   additions that it does not disable, replaces what is to be loaded by what exists, and no two extensions end
   up with one id.
   */
  lemma OverlayResolvesIff(base: seq<Extension>, additions: seq<Extension>, overlay: Overlay)
    requires DistinctIds(base + additions)
    ensures OverlayOk(base, additions, overlay) <==>
      && (forall id | id in overlay.disable :: HasId(base, id))
      && (forall id | id in overlay.enable :: id !in overlay.disable && HasId(additions, id))
      && EntriesOk(base + additions, Selected(base, additions, overlay), overlay.replace)
      && NoClash(Selected(base, additions, overlay), overlay.replace)
  {
    SelectedDistinct(base, additions, overlay);
    if EntriesOk(base + additions, Selected(base, additions, overlay), overlay.replace) {
      DistinctIffNoClash(base + additions, Selected(base, additions, overlay), overlay.replace);
    }
  }

  /** Two extensions replaced by each other change places, and nothing else moves. */
  lemma SwapChangesPlaces(base: seq<Extension>, additions: seq<Extension>, overlay: Overlay, i: nat, j: nat)
    requires DistinctIds(base + additions)
    requires var s := Selected(base, additions, overlay);
      i < |s| && j < |s| && i != j && overlay.replace == [Entry(s[i].id, s[j].id), Entry(s[j].id, s[i].id)]
    ensures var s := Selected(base, additions, overlay);
      Final(base, additions, overlay) == s[i := s[j]][j := s[i]] && DistinctIds(Final(base, additions, overlay))
  {
    var s, all, entries := Selected(base, additions, overlay), base + additions, overlay.replace;
    SelectedDistinct(base, additions, overlay);
    assert s[i].id != s[j].id;
    FindsTheOne(all, s[i]);
    FindsTheOne(all, s[j]);
    forall k | 0 <= k < |s| ensures Renew(all, entries, s[k]) == s[i := s[j]][j := s[i]][k] {
      SourceInSwap(s[i].id, s[j].id, s[k].id);
      assert k != i ==> s[k].id != s[i].id;
      assert k != j ==> s[k].id != s[j].id;
    }
  }

  lemma SourceInSwap(a: string, b: string, id: string)
    requires a != b
    ensures SourceOf([Entry(a, b), Entry(b, a)], id) == if id == a then Some(b) else if id == b then Some(a) else None
  {
    var one, two := [Entry(a, b)], [Entry(a, b), Entry(b, a)];
    assert one[..0] == [] && two[..1] == one;
    assert SourceOf(one, id) == if id == a then Some(b) else SourceOf(one[..0], id);
    assert SourceOf(two, id) == if id == b then Some(a) else SourceOf(two[..1], id);
  }

  // ---- What is loaded ----

  /** Of the base what is not disabled, of the additions what is enabled. */
  function Chosen(base: seq<Extension>, overlay: Overlay): Extension -> bool {
    (e: Extension) => if e in base then e.id !in overlay.disable else e.id in overlay.enable
  }

  /** The extensions to be loaded are the chosen ones of base and additions, in their order. */
  lemma SelectedAreChosen(base: seq<Extension>, additions: seq<Extension>, overlay: Overlay)
    requires DistinctIds(base + additions)
    ensures Selected(base, additions, overlay) == Filter(base + additions, Chosen(base, overlay))
  {
    IdsOfParts(base, additions);
    FilterAppend(base, additions, Chosen(base, overlay));
    FilterSame(base, NotIn(overlay.disable), Chosen(base, overlay));
    FilterSame(additions, IdIn(overlay.enable), Chosen(base, overlay));
  }

  /** The last entry that replaces `id`. */
  ghost predicate LastFor(entries: seq<Entry>, k: nat, id: string) {
    k < |entries| && entries[k].target == id && forall j | k < j < |entries| :: entries[j].target != id
  }

  lemma {:induction false} SourceIsOfLast(entries: seq<Entry>, id: string)
    ensures SourceOf(entries, id).Some? ==>
      exists k: nat :: LastFor(entries, k, id) && entries[k].source == SourceOf(entries, id).value
    ensures SourceOf(entries, id).None? ==> forall k: nat :: !LastFor(entries, k, id)
  {
    if entries != [] {
      var n := |entries| - 1;
      if entries[n].target == id {
        assert LastFor(entries, n, id);
      } else {
        SourceIsOfLast(entries[..n], id);
        if SourceOf(entries, id).Some? {
          var k: nat :| LastFor(entries[..n], k, id) && entries[..n][k].source == SourceOf(entries, id).value;
          assert LastFor(entries, k, id);
        } else if k: nat :| LastFor(entries, k, id) {
          assert LastFor(entries[..n], k, id);
        }
      }
    }
  }

  /** `now` takes the place of `was`: itself unless an entry replaces it, and then what the last such entry names. */
  ghost predicate TakesPlace(pool: seq<Extension>, entries: seq<Entry>, was: Extension, now: Extension) {
    && ((forall k: nat :: !LastFor(entries, k, was.id)) ==> now == was)
    && (forall k: nat | LastFor(entries, k, was.id) :: now in pool && now.id == entries[k].source)
  }

  /** What an overlay that resolves loads: each chosen extension, or its replacement, in its place. */
  lemma LoadedInPlace(base: seq<Extension>, additions: seq<Extension>, overlay: Overlay, i: nat)
    requires DistinctIds(base + additions) && OverlayOk(base, additions, overlay)
    requires i < |Filter(base + additions, Chosen(base, overlay))|
    ensures var pool, loaded := base + additions, Final(base, additions, overlay);
      && |loaded| == |Filter(pool, Chosen(base, overlay))|
      && TakesPlace(pool, overlay.replace, Filter(pool, Chosen(base, overlay))[i], loaded[i])
  {
    SelectedAreChosen(base, additions, overlay);
    RenewTakesPlace(base + additions, Selected(base, additions, overlay), overlay.replace,
                    Selected(base, additions, overlay)[i]);
  }

  lemma RenewTakesPlace(pool: seq<Extension>, s: seq<Extension>, entries: seq<Entry>, e: Extension)
    requires EntriesOk(pool, s, entries)
    ensures TakesPlace(pool, entries, e, Renew(pool, entries, e))
  {
    SourceIsOfLast(entries, e.id);
    if k: nat :| LastFor(entries, k, e.id) {
      var j: nat :| LastFor(entries, j, e.id) && entries[j].source == SourceOf(entries, e.id).value;
      assert j == k;
      FindsAny(pool, entries[k].source);
    }
  }
}
