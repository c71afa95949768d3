/** Moving the application's data from the legacy directory to the primary one (packages/config/src/data-dir.ts). */
module DataDir {
  import opened Prelude
  import opened FileSystems

  const NEW_BASENAME := ".minimax"
  const LEGACY_BASENAME := ".mavis"

  function BasenameForProfile(base: string, profile: string): string {
    if profile == "" then base else base + "-" + profile
  }

  function PrimaryPath(home: string, profile: string): Path {
    home + "/" + BasenameForProfile(NEW_BASENAME, profile)
  }

  function LegacyPath(home: string, profile: string): Path {
    home + "/" + BasenameForProfile(LEGACY_BASENAME, profile)
  }

  function BackupPath(legacy: Path, stamp: string): Path {
    legacy + ".backup-" + stamp
  }

  /** The three paths the migration writes to are never confused. */
  lemma PathsDiffer(home: string, profile: string, stamp: string)
    ensures PrimaryPath(home, profile) != LegacyPath(home, profile)
    ensures BackupPath(LegacyPath(home, profile), stamp) != LegacyPath(home, profile)
    ensures BackupPath(LegacyPath(home, profile), stamp) != PrimaryPath(home, profile)
  {
    var k := |home| + 3;
    assert PrimaryPath(home, profile)[k] == 'i';
    assert LegacyPath(home, profile)[k] == 'a';
    assert BackupPath(LegacyPath(home, profile), stamp)[k] == 'a';
    assert |BackupPath(LegacyPath(home, profile), stamp)| > |LegacyPath(home, profile)|;
  }

  /** Every profile has directories of its own, the default ones being named after the program alone. */
  lemma ProfilesDiffer(home: string, profile: string, other: string, stamp: string, later: string)
    ensures PrimaryPath(home, "") == home + "/.minimax" && LegacyPath(home, "") == home + "/.mavis"
    ensures PrimaryPath(home, profile) == PrimaryPath(home, other) <==> profile == other
    ensures LegacyPath(home, profile) == LegacyPath(home, other) <==> profile == other
    ensures BackupPath(home, stamp) == BackupPath(home, later) <==> stamp == later
  {
    if PrimaryPath(home, profile) == PrimaryPath(home, other) {
      SuffixesDiffer(home + "/", NEW_BASENAME, profile, other);
    }
    if LegacyPath(home, profile) == LegacyPath(home, other) {
      SuffixesDiffer(home + "/", LEGACY_BASENAME, profile, other);
    }
    assert BackupPath(home, stamp)[|home + ".backup-"|..] == stamp;
    assert BackupPath(home, later)[|home + ".backup-"|..] == later;
  }

  lemma SuffixesDiffer(prefix: string, base: string, profile: string, other: string)
    requires prefix + BasenameForProfile(base, profile) == prefix + BasenameForProfile(base, other)
    ensures profile == other
  {
    var a, b := prefix + BasenameForProfile(base, profile), prefix + BasenameForProfile(base, other);
    var k := |prefix| + |base| + 1;
    if profile != "" {
      assert a[k..] == profile;
    }
    if other != "" {
      assert b[k..] == other;
    }
  }

  // ---- What may not be lost ----

  /** Every directory with content survives: where it was, except that `from` may now be at `to`. */
  ghost predicate Relocated(a: Nodes, b: Nodes, from: Path, to: Path) {
    && (forall q :: HoldsContent(a, q) && q != from ==> q in b && b[q] == a[q])
    && (HoldsContent(a, from) ==> to in b && b[to] == a[from])
    && (from != to ==> !HoldsContent(a, to))
  }

  /** At most one directory with content has moved, and only to the primary or the backup path. */
  ghost predicate Preserved(a: Nodes, b: Nodes, primary: Path, backup: Path) {
    exists from, to :: (to == primary || to == backup) && Relocated(a, b, from, to)
  }

  lemma IntactPreserved(a: Nodes, b: Nodes, primary: Path, backup: Path)
    requires Intact(a, b)
    ensures Preserved(a, b, primary, backup)
  {
    assert Relocated(a, b, primary, primary);
  }

  // ---- The helpers that change the file system ----

  method IsLinkTo(fs: FileSystem, link: Path, target: Path) returns (yes: bool)
    ensures yes ==> LinksTo(fs.nodes, link, target)
    ensures fs.reliable ==> yes == LinksTo(fs.nodes, link, target)
  {
    var resolved := fs.ReadLink(link);
    yes := resolved == Some(target);
  }

  predicate LinksTo(nodes: Nodes, link: Path, target: Path) {
    link in nodes && nodes[link] == Link(target)
  }

  method ReadContent(fs: FileSystem, p: Path) returns (r: ContentState)
    ensures r.Unknown? || (Follow(fs.nodes, p).Some? && r == ContentAt(fs.nodes, p))
    ensures fs.reliable ==> r == ContentAt(fs.nodes, p)
  {
    var entries := fs.ReadEntries(p, false);
    if entries.None? {
      return Unknown;
    }
    if entries.value == {} {
      return Empty;
    }
    if entries.value == {"workspace"} {
      var inner := fs.ReadEntries(p, true);
      if inner.None? {
        return Unknown;
      }
      return if inner.value != {} then HasData else Empty;
    }
    return HasData;
  }

  /** None: the link leads to something that is not a directory. */
  function LinkContent(nodes: Nodes, link: Path): Option<ContentState> {
    var at := Follow(nodes, link);
    if at.Some? && !nodes[at.value].Directory? then None else Some(ContentAt(nodes, link))
  }

  method ReadLinkContent(fs: FileSystem, link: Path) returns (r: Option<ContentState>)
    ensures r == Some(Unknown) || r == LinkContent(fs.nodes, link)
    ensures fs.reliable ==> r == LinkContent(fs.nodes, link)
  {
    var at := fs.RealPath(link);
    if at.None? {
      return Some(Unknown);
    }
    if !fs.nodes[at.value].Directory? {
      return None;
    }
    var content := ReadContent(fs, link);
    r := Some(content);
  }

  method CreateCompatLink(fs: FileSystem, legacy: Path, primary: Path)
    modifies fs`nodes
    ensures Intact(old(fs.nodes), fs.nodes)
    ensures fs.reliable ==>
      fs.nodes == if legacy in old(fs.nodes) then old(fs.nodes) else old(fs.nodes)[legacy := Link(primary)]
  {
    var linked := IsLinkTo(fs, legacy, primary);
    if !linked {
      var created := fs.SymLink(primary, legacy);
    }
  }

  /** Makes room at the legacy path; false when whatever is there has to stay. */
  method PrepareLegacyPathForLink(fs: FileSystem, legacy: Path, primary: Path, backup: Path) returns (ready: bool)
    requires legacy != backup
    modifies fs`nodes
    ensures Preserved(old(fs.nodes), fs.nodes, primary, backup)
    ensures !ready ==> fs.nodes == old(fs.nodes)
    ensures fs.reliable ==> ready == Replaceable(old(fs.nodes), fs.remote, legacy, primary, backup)
    ensures fs.reliable && ready ==> fs.nodes == Cleared(old(fs.nodes), legacy, primary, backup)
  {
    IntactPreserved(fs.nodes, fs.nodes, primary, backup);
    var linked := IsLinkTo(fs, legacy, primary);
    if linked {
      return true;
    }
    var state := fs.State(legacy);
    if state.None? {
      return true;
    }
    ghost var was := fs.nodes;
    match state.value
    case Inaccessible =>
      return false;
    case Link(_) =>
      var content := ReadLinkContent(fs, legacy);
      if content == Some(HasData) || content == Some(Unknown) {
        return false;
      }
      ready := fs.Unlink(legacy);
      IntactPreserved(was, fs.nodes, primary, backup);
    case Other(_) =>
      ready := fs.Unlink(legacy);
      IntactPreserved(was, fs.nodes, primary, backup);
    case Directory(_) =>
      var outcome := fs.Rename(legacy, backup);
      ready := outcome.Renamed?;
      if ready {
        assert Relocated(was, fs.nodes, legacy, backup);
      }
  }

  /** Whether the legacy path can be turned into the compatibility link. */
  predicate Replaceable(nodes: Nodes, remote: set<Path>, legacy: Path, primary: Path, backup: Path) {
    LinksTo(nodes, legacy, primary) || legacy !in nodes ||
    match nodes[legacy]
    case Inaccessible => false
    case Link(_) => LinkContent(nodes, legacy) in {None, Some(Empty)}
    case Other(_) => true
    case Directory(_) => RenameOutcome(nodes, remote, legacy, backup).Renamed?
  }

  function Cleared(nodes: Nodes, legacy: Path, primary: Path, backup: Path): Nodes {
    if LinksTo(nodes, legacy, primary) || legacy !in nodes then nodes
    else if nodes[legacy].Directory? then Moved(nodes, legacy, backup)
    else nodes - {legacy}
  }

  method EnsureCompatLink(fs: FileSystem, legacy: Path, primary: Path, backup: Path)
    requires legacy != backup
    modifies fs`nodes
    ensures Preserved(old(fs.nodes), fs.nodes, primary, backup)
    ensures fs.reliable ==> fs.nodes == WithCompatLink(old(fs.nodes), fs.remote, legacy, primary, backup)
  {
    ghost var was := fs.nodes;
    var ready := PrepareLegacyPathForLink(fs, legacy, primary, backup);
    if ready {
      ghost var between := fs.nodes;
      CreateCompatLink(fs, legacy, primary);
      PreservedThenIntact(was, between, fs.nodes, primary, backup);
    }
  }

  lemma PreservedThenIntact(a: Nodes, b: Nodes, c: Nodes, primary: Path, backup: Path)
    requires Preserved(a, b, primary, backup) && Intact(b, c)
    ensures Preserved(a, c, primary, backup)
  {
    var from, to :| (to == primary || to == backup) && Relocated(a, b, from, to);
    forall q | HoldsContent(a, q) && q != from ensures q in c && c[q] == a[q] {
      assert HoldsContent(b, q);
    }
    if HoldsContent(a, from) {
      assert HoldsContent(b, to);
    }
    assert Relocated(a, c, from, to);
  }

  /** The nodes once the legacy path, if it can be replaced, is a link to the primary path. */
  function WithCompatLink(nodes: Nodes, remote: set<Path>, legacy: Path, primary: Path, backup: Path): Nodes {
    if Replaceable(nodes, remote, legacy, primary, backup)
    then Cleared(nodes, legacy, primary, backup)[legacy := Link(primary)]
    else nodes
  }

  /** Only `p`, which held no content, differs. */
  lemma IntactElsewhere(a: Nodes, b: Nodes, p: Path)
    requires !HoldsContent(a, p) && a - {p} == b - {p}
    ensures Intact(a, b)
  {
    forall q | HoldsContent(a, q) ensures q in b && b[q] == a[q] {
      assert q in a - {p} && (a - {p})[q] == (b - {p})[q];
    }
  }

  method CopyLinkTargetIntoPrimary(fs: FileSystem, target: Path, legacy: Path, primary: Path) returns (ok: bool)
    requires target != primary && legacy != primary
    requires HoldsContent(fs.nodes, target)
    requires primary in fs.nodes ==> !fs.nodes[primary].Directory?
    modifies fs`nodes
    ensures Relocated(old(fs.nodes), fs.nodes, target, primary) || Intact(old(fs.nodes), fs.nodes)
    ensures !ok ==> fs.nodes - {primary} == old(fs.nodes) - {primary}
    ensures fs.reliable && legacy in old(fs.nodes) && old(fs.nodes)[legacy].Link? ==>
      && ok == (primary !in old(fs.nodes))
      && fs.nodes == if ok then Moved(old(fs.nodes), target, primary) - {legacy}
                     else if Follow(old(fs.nodes), primary).Some? then old(fs.nodes) - {primary}
                     else old(fs.nodes)
  {
    ghost var was := fs.nodes;
    var copied := fs.CopyTree(target, primary);
    var unlinked := false;
    if copied {
      unlinked := fs.Unlink(legacy);
    }
    if unlinked {
      ghost var both := fs.nodes;
      assert both == was[primary := was[target]] - {legacy};
      var removed := fs.RemoveTree(target);
      CopiedAway(was, both, fs.nodes, target, legacy, primary);
      if removed {
        assert fs.nodes == Moved(was, target, primary) - {legacy};
      }
      return true;
    }
    assert fs.nodes - {primary} == was - {primary};
    var present := fs.Exists(primary);
    if present {
      ghost var partial := fs.nodes;
      var cleaned := fs.RemoveTree(primary);
      assert fs.nodes - {primary} == partial - {primary};
    }
    IntactElsewhere(was, fs.nodes, primary);
    return false;
  }

  /** Whatever the removal of the old copy leaves, the new copy is complete. */
  lemma CopiedAway(was: Nodes, both: Nodes, now: Nodes, target: Path, legacy: Path, primary: Path)
    requires target != primary && legacy != primary && !HoldsContent(was, primary)
    requires HoldsContent(was, target) && legacy in was && !was[legacy].Directory?
    requires both == was[primary := was[target]] - {legacy}
    requires now - {target} == both - {target}
    ensures Relocated(was, now, target, primary)
  {
    forall q | (HoldsContent(was, q) && q != target) || q == primary ensures q in now && now[q] == both[q] {
      assert q in both - {target} && (both - {target})[q] == (now - {target})[q];
    }
  }

  method MigrateLinkTargetIntoPrimary(fs: FileSystem, legacy: Path, primary: Path) returns (ok: bool)
    requires legacy != primary
    requires legacy in fs.nodes && fs.nodes[legacy].Link? && ContentAt(fs.nodes, legacy).HasData?
    requires primary in fs.nodes ==> !fs.nodes[primary].Directory?
    modifies fs`nodes
    ensures exists target :: Relocated(old(fs.nodes), fs.nodes, target, primary)
    ensures !ok && fs.nodes - {primary} != old(fs.nodes) - {primary} ==>
      && fs.nodes == Moved(old(fs.nodes), Follow(old(fs.nodes), legacy).value, primary)
      && primary in fs.nodes && fs.nodes[primary] == old(fs.nodes)[Follow(old(fs.nodes), legacy).value]
      && Follow(fs.nodes, legacy).None?
    ensures fs.reliable ==>
      && ok == (primary !in old(fs.nodes))
      && fs.nodes == if ok then Moved(old(fs.nodes), Follow(old(fs.nodes), legacy).value, primary) - {legacy}
                     else if ClobbersPrimary(old(fs.nodes), fs.remote, legacy, primary) then old(fs.nodes) - {primary}
                     else old(fs.nodes)
  {
    ghost var was := fs.nodes;
    assert Relocated(was, was, primary, primary);
    var target := fs.RealPath(legacy);
    if target.None? {
      return false;
    }
    var outcome := fs.Rename(target.value, primary);
    match outcome
    case RenameFailed =>
      ok := false;
    case CrossDevice =>
      ok := CopyLinkTargetIntoPrimary(fs, target.value, legacy, primary);
      assert Relocated(was, fs.nodes, target.value, primary) || Relocated(was, fs.nodes, primary, primary);
    case Renamed =>
      MovedAwayDangles(was, legacy, target.value, primary, {});
      ok := fs.Unlink(legacy);
      assert Relocated(was, fs.nodes, target.value, primary);
  }

  /**
   A copy from another device onto a link or file at the primary path fails, and the clean-up that
   follows the failure removes that link or file.
   */
  predicate ClobbersPrimary(nodes: Nodes, remote: set<Path>, legacy: Path, primary: Path) {
    var at := Follow(nodes, legacy);
    at.Some? && at.value in remote && Follow(nodes, primary).Some?
  }

  // ---- The decision ----

  datatype Settlement = Settlement(nodes: Nodes, dir: Path)

  function LegacyContent(nodes: Nodes, legacy: Path): ContentState {
    if legacy !in nodes then Empty
    else match nodes[legacy]
      case Directory(entries) => ContentOf(entries)
      case Link(_) => (match LinkContent(nodes, legacy) case Some(content) => content case None => Empty)
      case _ => Empty
  }

  /** What a run does when no call fails by chance. */
  function Settled(nodes: Nodes, remote: set<Path>, primary: Path, legacy: Path, backup: Path): Settlement {
    var content := LegacyContent(nodes, legacy);
    var unreadable := (legacy in nodes && nodes[legacy].Inaccessible?) || content.Unknown?;
    if primary in nodes && nodes[primary].Inaccessible? then Settlement(nodes, primary)
    else if primary in nodes && nodes[primary].Directory? then
      if !HoldsContent(nodes, primary) && unreadable then Settlement(nodes, legacy)
      else if !HoldsContent(nodes, primary) && content.HasData? then Adopted(nodes - {primary}, remote, primary, legacy)
      else Settlement(WithCompatLink(nodes, remote, legacy, primary, backup), primary)
    else if LinksTo(nodes, legacy, primary) then
      Settlement(if primary in nodes then nodes else nodes[primary := Directory(map[])], primary)
    else if (legacy in nodes && nodes[legacy].Directory?) || content.HasData?
      then Adopted(nodes, remote, primary, legacy)
    else if unreadable then Settlement(nodes, legacy)
    else if primary in nodes then Settlement(nodes, primary)
    else Settlement(WithCompatLink(nodes[primary := Directory(map[])], remote, legacy, primary, backup), primary)
  }

  /** The legacy data becomes the primary directory, or stays where it is. */
  function Adopted(nodes: Nodes, remote: set<Path>, primary: Path, legacy: Path): Settlement {
    var at := Follow(nodes, legacy);
    if legacy !in nodes || at.None? then Settlement(nodes, legacy)
    else if nodes[legacy].Directory? then
      if RenameOutcome(nodes, remote, legacy, primary).Renamed?
      then Settlement(Moved(nodes, legacy, primary)[legacy := Link(primary)], primary)
      else Settlement(nodes, legacy)
    else if primary !in nodes
      then Settlement((Moved(nodes, at.value, primary) - {legacy})[legacy := Link(primary)], primary)
    else if ClobbersPrimary(nodes, remote, legacy, primary) then Settlement(nodes - {primary}, legacy)
    else Settlement(nodes, legacy)
  }

  /** The decision when the primary path is a directory. */
  method SettleWithPrimary(fs: FileSystem, primary: Path, legacy: Path, backup: Path, legacyState: Option<Node>)
    returns (dir: Path)
    requires primary != legacy && legacy != backup && backup != primary
    requires primary in fs.nodes && fs.nodes[primary].Directory?
    requires legacyState == Some(Inaccessible) || legacyState == fs.StateOf(legacy)
    requires fs.reliable ==> legacyState == fs.StateOf(legacy)
    modifies fs`nodes
    ensures Preserved(old(fs.nodes), fs.nodes, primary, backup)
    ensures dir == primary || dir == legacy
    ensures fs.reliable ==> Settlement(fs.nodes, dir) == Settled(old(fs.nodes), fs.remote, primary, legacy, backup)
  {
    IntactPreserved(fs.nodes, fs.nodes, primary, backup);
    var newContent := ReadContent(fs, primary);
    var legacyContent := Empty;
    if legacyState.Some? && legacyState.value.Directory? {
      legacyContent := ReadContent(fs, legacy);
    } else if legacyState.Some? && legacyState.value.Link? {
      var linked := ReadLinkContent(fs, legacy);
      legacyContent := if linked.Some? then linked.value else Empty;
    }
    if newContent.Empty? {
      if (legacyState.Some? && legacyState.value.Inaccessible?) || legacyContent.Unknown? {
        return legacy;
      }
      if legacyState.Some? && (legacyState.value.Directory? || legacyState.value.Link?) && legacyContent.HasData? {
        dir := ReplaceEmptyPrimary(fs, primary, legacy, backup);
        return;
      }
    }
    EnsureCompatLink(fs, legacy, primary, backup);
    return primary;
  }

  /** For every pattern of failing calls, no directory with content is lost. */
  method ResolveDataDirPair(fs: FileSystem, primary: Path, legacy: Path, backup: Path) returns (dir: Path)
    requires primary != legacy && legacy != backup && backup != primary
    modifies fs`nodes
    ensures Preserved(old(fs.nodes), fs.nodes, primary, backup)
    ensures dir == primary || dir == legacy
    ensures fs.reliable ==> Settlement(fs.nodes, dir) == Settled(old(fs.nodes), fs.remote, primary, legacy, backup)
  {
    ghost var was := fs.nodes;
    IntactPreserved(was, was, primary, backup);
    var newState := fs.State(primary);
    var legacyState := fs.State(legacy);

    if newState.Some? && newState.value.Inaccessible? {
      return primary;
    }

    if newState.Some? && newState.value.Directory? {
      dir := SettleWithPrimary(fs, primary, legacy, backup, legacyState);
      return;
    }

    var linked := IsLinkTo(fs, legacy, primary);
    if linked {
      var made := fs.MakeDirectory(primary);
      IntactPreserved(was, fs.nodes, primary, backup);
      return primary;
    }

    if legacyState.Some? && legacyState.value.Directory? {
      dir := AdoptLegacy(fs, primary, legacy, backup);
      return;
    }

    if legacyState.Some? && legacyState.value.Link? {
      var legacyContent := ReadLinkContent(fs, legacy);
      if legacyContent == Some(HasData) {
        dir := AdoptLegacy(fs, primary, legacy, backup);
        return;
      }
      if legacyContent == Some(Unknown) {
        return legacy;
      }
    }

    if legacyState.Some? && legacyState.value.Inaccessible? {
      return legacy;
    }
    if newState.Some? {
      return primary;
    }
    var made := fs.MakeDirectory(primary);
    ghost var between := fs.nodes;
    EnsureCompatLink(fs, legacy, primary, backup);
    IntactThenPreserved(was, between, fs.nodes, primary, backup);
    return primary;
  }

  lemma IntactThenPreserved(a: Nodes, b: Nodes, c: Nodes, primary: Path, backup: Path)
    requires Intact(a, b) && Preserved(b, c, primary, backup)
    requires forall q | HoldsContent(b, q) :: HoldsContent(a, q)
    ensures Preserved(a, c, primary, backup)
  {
    var from, to :| (to == primary || to == backup) && Relocated(b, c, from, to);
    forall q | HoldsContent(a, q) ensures HoldsContent(b, q) && b[q] == a[q] {}
    assert Relocated(a, c, from, to);
  }

  method ReplaceEmptyPrimary(fs: FileSystem, primary: Path, legacy: Path, backup: Path) returns (dir: Path)
    requires primary != legacy && legacy != backup && backup != primary
    requires primary in fs.nodes && fs.nodes[primary].Directory? && !HoldsContent(fs.nodes, primary)
    requires LegacyContent(fs.nodes, legacy).HasData?
    modifies fs`nodes
    ensures Preserved(old(fs.nodes), fs.nodes, primary, backup)
    ensures dir == primary || dir == legacy
    ensures fs.reliable ==> Settlement(fs.nodes, dir) == Adopted(old(fs.nodes) - {primary}, fs.remote, primary, legacy)
  {
    ghost var was := fs.nodes;
    var removed := fs.RemoveTree(primary);
    IntactElsewhere(was, fs.nodes, primary);
    IntactPreserved(was, fs.nodes, primary, backup);
    if !removed {
      return legacy;
    }
    ghost var between := fs.nodes;
    FollowWithout(was, legacy, primary, {});
    dir := AdoptLegacy(fs, primary, legacy, backup);
    IntactThenPreserved(was, between, fs.nodes, primary, backup);
  }

  /** Moves the legacy data to the primary path, where no directory is, and leaves a link behind. */
  method AdoptLegacy(fs: FileSystem, primary: Path, legacy: Path, backup: Path) returns (dir: Path)
    requires primary != legacy && legacy != backup && backup != primary
    requires primary in fs.nodes ==> !fs.nodes[primary].Directory?
    requires legacy in fs.nodes
    requires fs.nodes[legacy].Directory? || (fs.nodes[legacy].Link? && ContentAt(fs.nodes, legacy).HasData?)
    modifies fs`nodes
    ensures Preserved(old(fs.nodes), fs.nodes, primary, backup)
    ensures dir == primary || dir == legacy
    ensures fs.reliable ==> Settlement(fs.nodes, dir) == Adopted(old(fs.nodes), fs.remote, primary, legacy)
  {
    ghost var was := fs.nodes;
    var migrated;
    if fs.nodes[legacy].Link? {
      migrated := MigrateLinkTargetIntoPrimary(fs, legacy, primary);
    } else {
      var outcome := fs.Rename(legacy, primary);
      migrated := outcome.Renamed?;
      assert Relocated(was, fs.nodes, if migrated then legacy else primary, primary);
    }
    if !migrated {
      return legacy;
    }
    ghost var between := fs.nodes;
    CreateCompatLink(fs, legacy, primary);
    PreservedThenIntact(was, between, fs.nodes, primary, backup);
    return primary;
  }

  // ---- Following links in changed nodes ----

  lemma {:induction false} FollowWithout(nodes: Nodes, p: Path, x: Path, seen: set<Path>)
    requires x in nodes && !nodes[x].Link? && Follow(nodes, p, seen) != Some(x)
    ensures Follow(nodes - {x}, p, seen) == Follow(nodes, p, seen)
    decreases nodes.Keys - seen
  {
    if p in nodes && p !in seen && nodes[p].Link? {
      FollowWithout(nodes, nodes[p].target, x, seen + {p});
    }
  }

  lemma {:induction false} FollowFewer(nodes: Nodes, p: Path, x: Path, seen: set<Path>)
    requires Follow(nodes - {x}, p, seen).Some?
    ensures Follow(nodes, p, seen) == Follow(nodes - {x}, p, seen)
    decreases nodes.Keys - seen
  {
    if p in nodes && p !in seen && nodes[p].Link? {
      FollowFewer(nodes, nodes[p].target, x, seen + {p});
    }
  }

  lemma {:induction false} FollowUnseen(nodes: Nodes, p: Path, seen: set<Path>, fewer: set<Path>)
    requires fewer <= seen && Follow(nodes, p, seen).Some?
    ensures Follow(nodes, p, fewer) == Follow(nodes, p, seen)
    decreases nodes.Keys - seen
  {
    if nodes[p].Link? {
      FollowUnseen(nodes, nodes[p].target, seen + {p}, fewer + {p});
    }
  }

  // ---- What a run without failures achieves ----

  /** The one case in which a run removes something at the primary path that is not an empty directory. */
  predicate Clobbers(nodes: Nodes, remote: set<Path>, primary: Path, legacy: Path) {
    && primary in nodes && (nodes[primary].Link? || nodes[primary].Other?)
    && legacy in nodes && nodes[legacy].Link? && !LinksTo(nodes, legacy, primary)
    && LegacyContent(nodes, legacy).HasData?
    && Follow(nodes, legacy).Some? && Follow(nodes, legacy).value in remote && Follow(nodes, primary).Some?
  }

  /** The legacy directory should become a backup and its name is taken, or it cannot be renamed at all. */
  predicate BackupBlocked(nodes: Nodes, remote: set<Path>, primary: Path, legacy: Path, backup: Path) {
    && primary in nodes && nodes[primary].Directory? && legacy in nodes && nodes[legacy].Directory?
    && (HoldsContent(nodes, primary) || LegacyContent(nodes, legacy).Empty?)
    && !RenameOutcome(nodes, remote, legacy, backup).Renamed?
  }

  /** The state a successful migration ends in is a resting state. */
  lemma LinkedIsSettled(nodes: Nodes, remote: set<Path>, primary: Path, legacy: Path, backup: Path)
    requires primary != legacy && LinksTo(nodes, legacy, primary) && primary in nodes && nodes[primary].Directory?
    ensures Settled(nodes, remote, primary, legacy, backup) == Settlement(nodes, primary)
  {
    assert {} + {legacy} == {legacy};
    assert Follow(nodes, legacy) == Follow(nodes, primary, {legacy}) == Some(primary);
    assert nodes[legacy := Link(primary)] == nodes;
  }

  lemma SecondRunWithPrimaryDirectory(nodes: Nodes, remote: set<Path>, primary: Path, legacy: Path, backup: Path,
                                      later: Path)
    requires primary != legacy && legacy != backup && backup != primary && legacy != later && later != primary
    requires primary in nodes && nodes[primary].Directory?
    ensures var first := Settled(nodes, remote, primary, legacy, backup);
      Settled(first.nodes, remote, primary, legacy, later) == first <==>
        !(BackupBlocked(nodes, remote, primary, legacy, backup) &&
          !BackupBlocked(nodes, remote, primary, legacy, later))
  {
    var first := Settled(nodes, remote, primary, legacy, backup);
    if !HoldsContent(nodes, primary) && LegacyContent(nodes, legacy).HasData? {
      FollowWithout(nodes, legacy, primary, {});
    }
    if LinksTo(first.nodes, legacy, primary) && primary in first.nodes {
      LinkedIsSettled(first.nodes, remote, primary, legacy, later);
    }
  }

  lemma SecondRunAfterClobber(nodes: Nodes, remote: set<Path>, primary: Path, legacy: Path, backup: Path, later: Path)
    requires primary != legacy && legacy != backup && backup != primary && legacy != later && later != primary
    requires Clobbers(nodes, remote, primary, legacy)
    ensures var first := Settled(nodes, remote, primary, legacy, backup);
      Settled(first.nodes, remote, primary, legacy, later) == first <==> Follow(nodes - {primary}, legacy).None?
  {
    assert Settled(nodes, remote, primary, legacy, backup) == Settlement(nodes - {primary}, legacy);
    if Follow(nodes - {primary}, legacy).Some? {
      FollowFewer(nodes, legacy, primary, {});
    }
  }

  lemma SecondRunWithoutPrimaryDirectory(nodes: Nodes, remote: set<Path>, primary: Path, legacy: Path, backup: Path,
                                         later: Path)
    requires primary != legacy && legacy != backup && backup != primary && legacy != later && later != primary
    requires primary in nodes ==> !nodes[primary].Directory?
    ensures var first := Settled(nodes, remote, primary, legacy, backup);
      Settled(first.nodes, remote, primary, legacy, later) == first <==>
        !(Clobbers(nodes, remote, primary, legacy) && Follow(nodes - {primary}, legacy).Some?)
  {
    var first := Settled(nodes, remote, primary, legacy, backup);
    if LinksTo(first.nodes, legacy, primary) && primary in first.nodes && first.nodes[primary].Directory? {
      LinkedIsSettled(first.nodes, remote, primary, legacy, later);
    } else if Clobbers(nodes, remote, primary, legacy) {
      SecondRunAfterClobber(nodes, remote, primary, legacy, backup, later);
    } else if primary !in nodes && Follow(nodes, legacy).Some? {
      var made := nodes[primary := Directory(map[])];
      assert made - {primary} == nodes;
      FollowFewer(made, legacy, primary, {});
    }
  }

  /**
   A second run, with its own backup name, changes nothing and returns the same path, exactly
   unless the first run could not make its backup and the second can, or the first run
   removed a link or file at the primary path while the legacy link still leads to the data.
   */
  lemma SecondRunChangesNothing(nodes: Nodes, remote: set<Path>, primary: Path, legacy: Path, backup: Path, later: Path)
    requires primary != legacy && legacy != backup && backup != primary && legacy != later && later != primary
    ensures var first := Settled(nodes, remote, primary, legacy, backup);
      Settled(first.nodes, remote, primary, legacy, later) == first <==>
        !(BackupBlocked(nodes, remote, primary, legacy, backup) &&
          !BackupBlocked(nodes, remote, primary, legacy, later)) &&
        !(Clobbers(nodes, remote, primary, legacy) && Follow(nodes - {primary}, legacy).Some?)
  {
    if primary in nodes && nodes[primary].Directory? {
      SecondRunWithPrimaryDirectory(nodes, remote, primary, legacy, backup, later);
    } else {
      SecondRunWithoutPrimaryDirectory(nodes, remote, primary, legacy, backup, later);
    }
  }

  ghost predicate LeadsTo(nodes: Nodes, p: Path, node: Node) {
    Follow(nodes, p).Some? && nodes[Follow(nodes, p).value] == node
  }

  predicate IsInaccessible(nodes: Nodes, p: Path) {
    p in nodes && nodes[p].Inaccessible?
  }

  /** Once the link at the primary path is gone, the legacy path no longer leads anywhere. */
  predicate CutsOff(nodes: Nodes, remote: set<Path>, primary: Path, legacy: Path) {
    Clobbers(nodes, remote, primary, legacy) && Follow(nodes - {primary}, legacy).None?
  }

  /**
   Without failures the returned path leads to the data, to what the primary directory held if it held anything,
   else to what the legacy path led to, exactly unless the primary path is inaccessible or the run removes the
   link through which alone the legacy path led there.
   */
  lemma ReturnedPathLeadsToData(nodes: Nodes, remote: set<Path>, primary: Path, legacy: Path, backup: Path,
                                source: Path)
    requires primary != legacy && legacy != backup && backup != primary
    requires source == primary || (!HoldsContent(nodes, primary) && Follow(nodes, legacy) == Some(source))
    requires HoldsContent(nodes, source)
    ensures var s := Settled(nodes, remote, primary, legacy, backup);
      LeadsTo(s.nodes, s.dir, nodes[source]) <==>
        !IsInaccessible(nodes, primary) && !CutsOff(nodes, remote, primary, legacy)
  {
    if source != primary && !IsInaccessible(nodes, primary) {
      if LinksTo(nodes, legacy, primary) {
        assert {} + {legacy} == {legacy};
        FollowUnseen(nodes, primary, {legacy}, {});
      }
      if primary in nodes && nodes[primary].Directory? {
        FollowWithout(nodes, legacy, primary, {});
      }
      if Clobbers(nodes, remote, primary, legacy) && Follow(nodes - {primary}, legacy).Some? {
        FollowFewer(nodes, legacy, primary, {});
      }
    }
  }

  // ---- Where the legacy path leads after a run without failures ----

  predicate IsDirectory(nodes: Nodes, p: Path) {
    p in nodes && nodes[p].Directory?
  }

  /** A directory with content, or a link to one; `unknown` is one whose content cannot be told. */
  predicate LeadsToContent(nodes: Nodes, p: Path) {
    Follow(nodes, p).Some? && HoldsContent(nodes, Follow(nodes, p).value)
  }

  predicate ContentUnknown(nodes: Nodes, p: Path) {
    LeadsToContent(nodes, p) && ContentAt(nodes, p).Unknown?
  }

  /** Nobody can tell whether there is data: no access, a link that leads nowhere, or a content that cannot be told. */
  predicate MayHideData(nodes: Nodes, p: Path) {
    p in nodes && (Follow(nodes, p).None? || ContentUnknown(nodes, p))
  }

  predicate CanBackUp(nodes: Nodes, remote: set<Path>, legacy: Path, backup: Path) {
    legacy !in remote && (backup in nodes ==> IsDirectory(nodes, backup) && nodes[backup].entries == map[])
  }

  /**
   Whatever is at the legacy path gives way to a link: nothing or a file always; beside a primary directory with
   content, a link without content behind it, or a directory that can be backed up; otherwise, unless it may hide data,
   a link, and a directory on the same device.
   */
  predicate GivesWay(nodes: Nodes, remote: set<Path>, primary: Path, legacy: Path, backup: Path) {
    (primary in nodes ==> IsDirectory(nodes, primary)) &&
    (legacy in nodes ==>
       match nodes[legacy]
       case Inaccessible => false
       case Other(_) => true
       case Link(_) =>
         !MayHideData(nodes, legacy) && !(HoldsContent(nodes, primary) && LeadsToContent(nodes, legacy))
       case Directory(_) =>
         if primary !in nodes then legacy !in remote
         else if HoldsContent(nodes, primary) || !HoldsContent(nodes, legacy)
           then CanBackUp(nodes, remote, legacy, backup)
         else !MayHideData(nodes, legacy) && legacy !in remote)
  }

  /** After a run the legacy path is a link to the primary one exactly if it was before, or gives way. */
  lemma LegacyLinksToPrimaryIff(nodes: Nodes, remote: set<Path>, primary: Path, legacy: Path, backup: Path)
    requires primary != legacy && legacy != backup && backup != primary
    ensures LinksTo(Settled(nodes, remote, primary, legacy, backup).nodes, legacy, primary) <==>
      LinksTo(nodes, legacy, primary) || GivesWay(nodes, remote, primary, legacy, backup)
  {
    FollowAround(nodes, primary, legacy);
  }

  /** Making or removing an empty primary directory changes nothing about where the legacy path leads otherwise. */
  lemma FollowAround(nodes: Nodes, primary: Path, legacy: Path)
    ensures primary !in nodes && Follow(nodes, legacy).Some? ==>
      Follow(nodes[primary := Directory(map[])], legacy) == Follow(nodes, legacy)
    ensures IsDirectory(nodes, primary) && Follow(nodes, legacy) != Some(primary) ==>
      Follow(nodes - {primary}, legacy) == Follow(nodes, legacy)
  {
    if primary !in nodes && Follow(nodes, legacy).Some? {
      var made := nodes[primary := Directory(map[])];
      assert made - {primary} == nodes;
      FollowFewer(made, legacy, primary, {});
    }
    if IsDirectory(nodes, primary) && Follow(nodes, legacy) != Some(primary) {
      FollowWithout(nodes, legacy, primary, {});
    }
  }

  /** The run returns the legacy path exactly if that may hide data, or holds data that cannot be moved. */
  lemma ReturnsLegacyIff(nodes: Nodes, remote: set<Path>, primary: Path, legacy: Path, backup: Path)
    requires primary != legacy && legacy != backup && backup != primary
    ensures Settled(nodes, remote, primary, legacy, backup).dir == legacy <==>
      && !LinksTo(nodes, legacy, primary) && !IsInaccessible(nodes, primary) && !HoldsContent(nodes, primary)
      && (MustStay(nodes, remote, primary, legacy) || IsInaccessible(nodes, legacy))
  {
    FollowAround(nodes, primary, legacy);
  }

  /** A directory is moved by a rename alone, a link's target also by a copy, and neither onto a link or a file. */
  predicate MustStay(nodes: Nodes, remote: set<Path>, primary: Path, legacy: Path) {
    legacy in nodes &&
    match nodes[legacy]
    case Link(_) => MayHideData(nodes, legacy) ||
      (LeadsToContent(nodes, legacy) && primary in nodes && !IsDirectory(nodes, primary))
    case Directory(_) =>
      if primary !in nodes then legacy in remote
      else if IsDirectory(nodes, primary)
        then ContentUnknown(nodes, legacy) || (HoldsContent(nodes, legacy) && legacy in remote)
      else true
    case _ => false
  }

  /** What the primary path holds after a run that returns it: its own content, else what the legacy path led to. */
  function Kept(nodes: Nodes, primary: Path, legacy: Path): Node {
    if HoldsContent(nodes, primary) then nodes[primary]
    else if LeadsToContent(nodes, legacy) || (primary !in nodes && IsDirectory(nodes, legacy))
      then nodes[Follow(nodes, legacy).value]
    else if primary in nodes then nodes[primary] else Directory(map[])
  }

  lemma PrimaryHoldsData(nodes: Nodes, remote: set<Path>, primary: Path, legacy: Path, backup: Path)
    requires primary != legacy && legacy != backup && backup != primary
    ensures var s := Settled(nodes, remote, primary, legacy, backup);
      if primary in nodes && !IsDirectory(nodes, primary)
      then if Clobbers(nodes, remote, primary, legacy) then s.nodes == nodes - {primary}
        else SameAt(nodes, s.nodes, primary)
      else s.dir == primary ==> primary in s.nodes && s.nodes[primary] == Kept(nodes, primary, legacy)
  {
    FollowAround(nodes, primary, legacy);
  }

  /** Beside a primary directory in use, or when it is empty, the legacy directory becomes the backup if it can. */
  predicate IsBackedUp(nodes: Nodes, remote: set<Path>, primary: Path, legacy: Path, backup: Path) {
    && IsDirectory(nodes, primary) && IsDirectory(nodes, legacy) && CanBackUp(nodes, remote, legacy, backup)
    && (HoldsContent(nodes, primary) || !HoldsContent(nodes, legacy))
  }

  lemma BackupIsMade(nodes: Nodes, remote: set<Path>, primary: Path, legacy: Path, backup: Path)
    requires primary != legacy && legacy != backup && backup != primary
    requires IsBackedUp(nodes, remote, primary, legacy, backup)
    ensures var s := Settled(nodes, remote, primary, legacy, backup);
      backup in s.nodes && s.nodes[backup] == nodes[legacy]
  {
  }

  lemma NoBackupBeside(nodes: Nodes, remote: set<Path>, primary: Path, legacy: Path, backup: Path)
    requires primary != legacy && legacy != backup && backup != primary && Follow(nodes, legacy) != Some(backup)
    requires !IsBackedUp(nodes, remote, primary, legacy, backup) && IsDirectory(nodes, primary)
    ensures SameAt(nodes, Settled(nodes, remote, primary, legacy, backup).nodes, backup)
  {
    FollowAround(nodes, primary, legacy);
  }

  lemma NoBackupWithout(nodes: Nodes, remote: set<Path>, primary: Path, legacy: Path, backup: Path)
    requires primary != legacy && legacy != backup && backup != primary && Follow(nodes, legacy) != Some(backup)
    requires !IsDirectory(nodes, primary)
    ensures SameAt(nodes, Settled(nodes, remote, primary, legacy, backup).nodes, backup)
  {
  }

  /** The backup path holds what was the legacy directory when that is backed up, and otherwise what it held before. */
  lemma BackupIsMadeIff(nodes: Nodes, remote: set<Path>, primary: Path, legacy: Path, backup: Path)
    requires primary != legacy && legacy != backup && backup != primary && Follow(nodes, legacy) != Some(backup)
    ensures var s := Settled(nodes, remote, primary, legacy, backup);
      if IsBackedUp(nodes, remote, primary, legacy, backup) then backup in s.nodes && s.nodes[backup] == nodes[legacy]
      else SameAt(nodes, s.nodes, backup)
  {
    if IsBackedUp(nodes, remote, primary, legacy, backup) {
      BackupIsMade(nodes, remote, primary, legacy, backup);
    } else if IsDirectory(nodes, primary) {
      NoBackupBeside(nodes, remote, primary, legacy, backup);
    } else {
      NoBackupWithout(nodes, remote, primary, legacy, backup);
    }
  }

  predicate SameAt(a: Nodes, b: Nodes, p: Path) {
    (p in a <==> p in b) && (p in a ==> a[p] == b[p])
  }

  /** A run touches the three paths and the directory that the legacy path leads to, and nothing else. */
  lemma OtherPathsStay(nodes: Nodes, remote: set<Path>, primary: Path, legacy: Path, backup: Path, p: Path)
    requires primary != legacy && legacy != backup && backup != primary
    requires p != primary && p != legacy && p != backup && Follow(nodes, legacy) != Some(p)
    ensures SameAt(nodes, Settled(nodes, remote, primary, legacy, backup).nodes, p)
  {
    FollowAround(nodes, primary, legacy);
  }

  /**
   What a failed unlink leaves after a successful rename: complete data at the primary path, a dangling legacy path.
   */
  lemma {:induction false} MovedAwayDangles(nodes: Nodes, p: Path, target: Path, primary: Path, seen: set<Path>)
    requires Follow(nodes, p, seen) == Some(target) && primary !in nodes
    ensures Moved(nodes, target, primary)[primary] == nodes[target]
    ensures Follow(Moved(nodes, target, primary), p, seen).None?
    decreases nodes.Keys - seen
  {
    if nodes[p].Link? {
      MovedAwayDangles(nodes, nodes[p].target, target, primary, seen + {p});
    }
  }

  // ---- A run that has to be repeated ----

  const TWO_LINKS: Nodes := map[
    "/h/.minimax" := Link("/e"), "/e" := Directory(map[]),
    "/h/.mavis" := Link("/r"), "/r" := Directory(map["db" := File(1)])]

  lemma TwoLinksLead()
    ensures Follow(TWO_LINKS, "/h/.mavis") == Some("/r") && Follow(TWO_LINKS, "/h/.minimax") == Some("/e")
    ensures Follow(TWO_LINKS - {"/h/.minimax"}, "/h/.mavis") == Some("/r")
  {
    assert Follow(TWO_LINKS, "/r", {} + {"/h/.mavis"}) == Some("/r");
    assert Follow(TWO_LINKS, "/e", {} + {"/h/.minimax"}) == Some("/e");
    assert Follow(TWO_LINKS - {"/h/.minimax"}, "/r", {} + {"/h/.mavis"}) == Some("/r");
  }

  lemma TwoLinksClobber()
    ensures Clobbers(TWO_LINKS, {"/r"}, "/h/.minimax", "/h/.mavis")
    ensures LegacyContent(TWO_LINKS, "/h/.mavis").HasData?
  {
    TwoLinksLead();
    DatabaseIsData();
  }

  /** The data lies on another device and the primary path is a link: the failed copy removes that link. */
  lemma FailedCopyRemovesPrimaryLink(backup: Path, later: Path)
    requires backup != "/h/.mavis" && backup != "/h/.minimax" && later != "/h/.mavis" && later != "/h/.minimax"
    ensures var first := Settled(TWO_LINKS, {"/r"}, "/h/.minimax", "/h/.mavis", backup);
      && first == Settlement(TWO_LINKS - {"/h/.minimax"}, "/h/.mavis")
      && Settled(first.nodes, {"/r"}, "/h/.minimax", "/h/.mavis", later) != first
  {
    TwoLinksLead();
    TwoLinksClobber();
    SecondRunChangesNothing(TWO_LINKS, {"/r"}, "/h/.minimax", "/h/.mavis", backup, later);
  }

  const CHAIN: Nodes := map[
    "/h/.mavis" := Link("/x"), "/x" := Link("/h/.minimax"), "/h/.minimax" := Link("/r"),
    "/r" := Directory(map["db" := File(1)])]

  lemma ChainLeads()
    ensures Follow(CHAIN, "/h/.mavis") == Some("/r") && Follow(CHAIN, "/h/.minimax") == Some("/r")
    ensures Follow(CHAIN - {"/h/.minimax"}, "/h/.mavis") == None
  {
    var cut := CHAIN - {"/h/.minimax"};
    assert Follow(CHAIN, "/r", {} + {"/h/.minimax"}) == Some("/r");
    assert Follow(CHAIN, "/r", {} + {"/h/.mavis"} + {"/x"} + {"/h/.minimax"}) == Some("/r");
    assert Follow(CHAIN, "/h/.minimax", {} + {"/h/.mavis"} + {"/x"}) == Some("/r");
    assert Follow(CHAIN, "/x", {} + {"/h/.mavis"}) == Some("/r");
    assert Follow(cut, "/h/.minimax", {} + {"/h/.mavis"} + {"/x"}) == None;
    assert Follow(cut, "/x", {} + {"/h/.mavis"}) == None;
  }

  lemma DatabaseIsData()
    ensures ContentOf(map["db" := File(1)]).HasData?
  {
    var entries: map<string, Entry> := map["db" := File(1)];
    assert |"db"| != |"workspace"|;
    assert "db" in entries.Keys && "db" !in {"workspace"};
  }

  lemma ChainIsCut()
    ensures CutsOff(CHAIN, {"/r"}, "/h/.minimax", "/h/.mavis")
  {
    ChainLeads();
    DatabaseIsData();
    assert CHAIN["/h/.mavis"] == Link("/x") && "/x" != "/h/.minimax";
  }

  /** No call fails, and yet neither path leads to the data: the legacy path led there through the primary link. */
  lemma FailedCopyCutsOffData(backup: Path)
    requires backup != "/h/.mavis" && backup != "/h/.minimax"
    ensures var s := Settled(CHAIN, {"/r"}, "/h/.minimax", "/h/.mavis", backup);
      s.nodes == CHAIN - {"/h/.minimax"} && s.dir == "/h/.mavis" && Follow(s.nodes, s.dir) == None
  {
    ChainLeads();
    DatabaseIsData();
    ChainIsCut();
  }

  // ---- A backup that is blocked and later free ----

  const TWO_DIRECTORIES: Nodes := map[
    "/h/.minimax" := Directory(map["db" := File(1)]), "/h/.mavis" := Directory(map["db" := File(2)]), "/b" := Other(3)]

  /** The first run finds its backup name taken and leaves the legacy directory; the second backs it up. */
  lemma BlockedBackupIsRetried(later: Path)
    requires later !in TWO_DIRECTORIES
    ensures var first := Settled(TWO_DIRECTORIES, {}, "/h/.minimax", "/h/.mavis", "/b");
      && first == Settlement(TWO_DIRECTORIES, "/h/.minimax")
      && Settled(first.nodes, {}, "/h/.minimax", "/h/.mavis", later) != first
  {
    DatabaseIsData();
    assert ContentOf(map["db" := File(1)]) != Empty;
    SecondRunChangesNothing(TWO_DIRECTORIES, {}, "/h/.minimax", "/h/.mavis", "/b", later);
  }
}
