/**
 The part of a file system that the data-directory migration uses. Paths are normalised and
 none lies inside another. A call may fail for reasons of its own (`reliable` is false), and a
 recursive removal or copy that fails may stop anywhere.
 */
module FileSystems {
  import opened Prelude

  type Path = string

  datatype Entry = File(data: int) | SubDirectory(entries: map<string, Entry>)

  datatype Node =
    | Inaccessible
    | Link(target: Path)
    | Directory(entries: map<string, Entry>)
    | Other(data: int)

  type Nodes = map<Path, Node>

  datatype ContentState = Empty | HasData | Unknown
  datatype Renaming = Renamed | CrossDevice | RenameFailed

  /** The node reached from `p` through any chain of links; None when it dangles or loops. */
  function Follow(nodes: Nodes, p: Path, seen: set<Path> := {}): (r: Option<Path>)
    ensures r.Some? ==> r.value in nodes && !nodes[r.value].Link? && !nodes[r.value].Inaccessible?
    decreases nodes.Keys - seen
  {
    if p !in nodes || p in seen then None
    else match nodes[p]
      case Link(target) => Follow(nodes, target, seen + {p})
      case Inaccessible => None
      case _ => Some(p)
  }

  /** A directory counts as empty when it holds at most an empty `workspace` directory. */
  function ContentOf(entries: map<string, Entry>): (r: ContentState)
    ensures r.Empty? <==> forall name | name in entries :: name == "workspace" && entries[name] == SubDirectory(map[])
    ensures r.Unknown? <==> entries.Keys == {"workspace"} && entries["workspace"].File?
  {
    if entries.Keys == {} then Empty
    else if entries.Keys == {"workspace"} then
      match entries["workspace"]
      case SubDirectory(inner) => if inner.Keys == {} then Empty else HasData
      case File(_) => Unknown
    else HasData
  }

  function ContentAt(nodes: Nodes, p: Path): ContentState {
    var at := Follow(nodes, p);
    if at.Some? && nodes[at.value].Directory? then ContentOf(nodes[at.value].entries) else Unknown
  }

  predicate CanReplace(nodes: Nodes, p: Path) {
    p in nodes ==> nodes[p].Directory? && nodes[p].entries.Keys == {}
  }

  /** What rename does when nothing fails by chance: `remote` holds the paths on other devices. */
  function RenameOutcome(nodes: Nodes, remote: set<Path>, src: Path, dst: Path): Renaming {
    if src !in nodes || nodes[src].Inaccessible? then RenameFailed
    else if src in remote then CrossDevice
    else if nodes[src].Directory? && CanReplace(nodes, dst) then Renamed
    else RenameFailed
  }

  function Moved(nodes: Nodes, src: Path, dst: Path): Nodes
    requires src in nodes
  {
    if src == dst then nodes else nodes[dst := nodes[src]] - {src}
  }

  /** `b` still holds every directory of `a` that had content, where it was. */
  ghost predicate Intact(a: Nodes, b: Nodes) {
    forall q :: HoldsContent(a, q) ==> q in b && b[q] == a[q]
  }

  predicate HoldsContent(nodes: Nodes, p: Path) {
    p in nodes && nodes[p].Directory? && ContentOf(nodes[p].entries) != Empty
  }

  class FileSystem {
    var nodes: Nodes
    const reliable: bool
    const remote: set<Path>

    constructor (nodes: Nodes, reliable: bool, remote: set<Path>)
      ensures this.nodes == nodes && this.reliable == reliable && this.remote == remote
    {
      this.nodes, this.reliable, this.remote := nodes, reliable, remote;
    }

    method Fails() returns (fault: bool)
      ensures reliable ==> !fault
    {
      fault := *;
      fault := fault && !reliable;
    }

    /** The nodes when a recursive call stops early: the directory at `p` is gone or holds anything. */
    method StoppedPartWay(p: Path) returns (r: Nodes)
      ensures r - {p} == nodes - {p}
      ensures p in r ==> r[p].Directory?
    {
      var gone: bool := *;
      var left: map<string, Entry> := *;
      r := if gone then nodes - {p} else nodes[p := Directory(left)];
    }

    function StateOf(p: Path): Option<Node>
      reads this`nodes
    {
      if p in nodes then Some(nodes[p]) else None
    }

    /** lstat: None is a missing path. */
    method State(p: Path) returns (r: Option<Node>)
      ensures r == Some(Inaccessible) || r == StateOf(p)
      ensures reliable ==> r == StateOf(p)
    {
      var fault := Fails();
      r := if fault then Some(Inaccessible) else StateOf(p);
    }

    method ReadLink(p: Path) returns (r: Option<Path>)
      ensures r.Some? ==> p in nodes && nodes[p] == Link(r.value)
      ensures reliable && p in nodes && nodes[p].Link? ==> r.Some?
    {
      var fault := Fails();
      r := if fault || p !in nodes || !nodes[p].Link? then None else Some(nodes[p].target);
    }

    method RealPath(p: Path) returns (r: Option<Path>)
      ensures r.Some? ==> r == Follow(nodes, p)
      ensures reliable ==> r == Follow(nodes, p)
    {
      var fault := Fails();
      r := if fault then None else Follow(nodes, p);
    }

    /** readdir of `p`, or of its `workspace` entry when `inWorkspace`. */
    method ReadEntries(p: Path, inWorkspace: bool) returns (r: Option<set<string>>)
      ensures r.Some? ==> Follow(nodes, p).Some? && nodes[Follow(nodes, p).value].Directory?
      ensures r.Some? && !inWorkspace ==> r.value == nodes[Follow(nodes, p).value].entries.Keys
      ensures r.Some? && inWorkspace ==>
        var entries := nodes[Follow(nodes, p).value].entries;
        "workspace" in entries && entries["workspace"].SubDirectory? && r.value == entries["workspace"].entries.Keys
      ensures reliable && Follow(nodes, p).Some? && nodes[Follow(nodes, p).value].Directory? ==>
        var entries := nodes[Follow(nodes, p).value].entries;
        !inWorkspace || ("workspace" in entries && entries["workspace"].SubDirectory?) ==> r.Some?
    {
      var fault := Fails();
      var at := Follow(nodes, p);
      if fault || at.None? || !nodes[at.value].Directory? {
        return None;
      }
      var entries := nodes[at.value].entries;
      if !inWorkspace {
        return Some(entries.Keys);
      }
      if "workspace" in entries && entries["workspace"].SubDirectory? {
        return Some(entries["workspace"].entries.Keys);
      }
      return None;
    }

    method Rename(src: Path, dst: Path) returns (r: Renaming)
      modifies this`nodes
      ensures r.Renamed? ==>
        RenameOutcome(old(nodes), remote, src, dst).Renamed? && nodes == Moved(old(nodes), src, dst)
      ensures !r.Renamed? ==> nodes == old(nodes)
      ensures reliable ==> r == RenameOutcome(old(nodes), remote, src, dst)
    {
      var fault := Fails();
      r := RenameOutcome(nodes, remote, src, dst);
      if fault {
        var acrossDevices := Fails();
        r := if acrossDevices then CrossDevice else RenameFailed;
      } else if r.Renamed? {
        nodes := Moved(nodes, src, dst);
      }
    }

    method Unlink(p: Path) returns (ok: bool)
      modifies this`nodes
      ensures ok ==> p in old(nodes) && (old(nodes)[p].Link? || old(nodes)[p].Other?) && nodes == old(nodes) - {p}
      ensures !ok ==> nodes == old(nodes)
      ensures reliable && p in old(nodes) && (old(nodes)[p].Link? || old(nodes)[p].Other?) ==> ok
    {
      var fault := Fails();
      ok := !fault && p in nodes && (nodes[p].Link? || nodes[p].Other?);
      if ok {
        nodes := nodes - {p};
      }
    }

    method SymLink(target: Path, p: Path) returns (ok: bool)
      modifies this`nodes
      ensures ok ==> p !in old(nodes) && nodes == old(nodes)[p := Link(target)]
      ensures !ok ==> nodes == old(nodes)
      ensures reliable ==> ok == (p !in old(nodes))
    {
      var fault := Fails();
      ok := !fault && p !in nodes;
      if ok {
        nodes := nodes[p := Link(target)];
      }
    }

    /** Recursive rm without following a link at `p`. A failed removal of a directory may leave any part of it. */
    method RemoveTree(p: Path) returns (ok: bool)
      modifies this`nodes
      ensures ok ==> p in old(nodes) && nodes == old(nodes) - {p}
      ensures !ok ==>
        nodes == old(nodes) || (p in old(nodes) && old(nodes)[p].Directory? && nodes - {p} == old(nodes) - {p})
      ensures reliable && p in old(nodes) && !old(nodes)[p].Inaccessible? ==> ok
    {
      var fault := Fails();
      ok := !fault && p in nodes && !nodes[p].Inaccessible?;
      if ok {
        nodes := nodes - {p};
      } else if p in nodes && nodes[p].Directory? {
        nodes := StoppedPartWay(p);
      }
    }

    /** Recursive cp that refuses to overwrite; it never replaces a link or a file by a directory. */
    method CopyTree(src: Path, dst: Path) returns (ok: bool)
      requires dst in nodes ==> !nodes[dst].Directory?
      modifies this`nodes
      ensures ok ==>
        dst !in old(nodes) && src in old(nodes) && old(nodes)[src].Directory? &&
          nodes == old(nodes)[dst := old(nodes)[src]]
      ensures !ok ==>
        nodes == old(nodes) ||
          (dst !in old(nodes) && nodes - {dst} == old(nodes) - {dst} && (dst in nodes ==> nodes[dst].Directory?))
      ensures reliable ==> ok == (dst !in old(nodes) && src in old(nodes) && old(nodes)[src].Directory?)
      ensures reliable && !ok ==> nodes == old(nodes)
    {
      var fault := Fails();
      ok := !fault && dst !in nodes && src in nodes && nodes[src].Directory?;
      if ok {
        nodes := nodes[dst := nodes[src]];
      } else if fault && dst !in nodes {
        nodes := StoppedPartWay(dst);
      }
    }

    method MakeDirectory(p: Path) returns (ok: bool)
      modifies this`nodes
      ensures !ok || p in old(nodes) ==> nodes == old(nodes)
      ensures ok && p !in old(nodes) ==> nodes == old(nodes)[p := Directory(map[])]
      ensures reliable && p !in old(nodes) ==> ok
    {
      var fault := Fails();
      if fault {
        return false;
      }
      if p in nodes {
        var at := Follow(nodes, p);
        return at.Some? && nodes[at.value].Directory?;
      }
      nodes := nodes[p := Directory(map[])];
      return true;
    }

    method Exists(p: Path) returns (yes: bool)
      ensures yes ==> Follow(nodes, p).Some?
      ensures reliable ==> yes == Follow(nodes, p).Some?
    {
      var fault := Fails();
      yes := !fault && Follow(nodes, p).Some?;
    }
  }
}
