/** A source directory and the walk over it (archive_ops.rs, walk_files). The tree does not change
    while it is walked. Directory order is whatever the listing says. */
module FileTree {
  import opened Prelude
  import opened Paths

  type Path = seq<string>

  /** `File` stands for everything that is neither a directory nor a symlink. */
  datatype Tree = File(data: Bytes) | Symlink | Dir(listing: Listing)

  datatype Listing = End | Entry(name: string, node: Tree, next: Listing)

  function Find(l: Listing, name: string): Option<Tree> {
    match l
    case End => None
    case Entry(x, node, next) => if x == name then Some(node) else Find(next, name)
  }

  /** Sibling names are proper names and differ. */
  ghost predicate WellNamed(l: Listing) {
    match l
    case End => true
    case Entry(name, node, next) =>
      && Plain(name)
      && Find(next, name).None?
      && (node.Dir? ==> WellNamed(node.listing))
      && WellNamed(next)
  }

  /** The directory at a path, crossing no symlink. */
  function DirAt(l: Listing, p: Path): Option<Listing>
    decreases |p|
  {
    if p == [] then Some(l)
    else match Find(l, p[0])
      case Some(Dir(sub)) => DirAt(sub, p[1..])
      case _ => None
  }

  /** The contents of the regular file at a path, crossing no symlink. */
  function FileAt(l: Listing, p: Path): Option<Bytes>
    decreases |p|
  {
    if p == [] then None
    else match Find(l, p[0])
      case Some(File(data)) => if |p| == 1 then Some(data) else None
      case Some(Dir(sub)) => FileAt(sub, p[1..])
      case _ => None
  }

  // ---- The reference: files listed recursively ----

  function FilesIn(l: Listing, at: Path): seq<Path> {
    match l
    case End => []
    case Entry(name, node, next) =>
      (match node
       case File(_) => [at + [name]]
       case Symlink => []
       case Dir(sub) => FilesIn(sub, at + [name]))
      + FilesIn(next, at)
  }

  function TreeBytes(l: Listing): nat {
    match l
    case End => 0
    case Entry(_, node, next) =>
      (match node
       case File(data) => |data|
       case Symlink => 0
       case Dir(sub) => TreeBytes(sub))
      + TreeBytes(next)
  }

  /** Entries at any depth: the measure of the walk. */
  function Nodes(l: Listing): nat {
    match l
    case End => 0
    case Entry(_, node, next) => 1 + (if node.Dir? then Nodes(node.listing) else 0) + Nodes(next)
  }

  /** Whether `p` goes on from `at` to a regular file of `l`. */
  predicate FileBelow(l: Listing, at: Path, p: Path) {
    at <= p && FileAt(l, p[|at|..]).Some?
  }

  lemma FindPlain(l: Listing, name: string)
    requires WellNamed(l) && Find(l, name).Some?
    ensures Plain(name)
    ensures Find(l, name).value.Dir? ==> WellNamed(Find(l, name).value.listing)
  {}

  lemma {:induction false} FileBelowEntry(name: string, node: Tree, next: Listing, at: Path, p: Path)
    requires Find(next, name).None?
    ensures FileBelow(Entry(name, node, next), at, p) <==>
              FileBelow(next, at, p)
              || (node.File? && p == at + [name])
              || (node.Dir? && FileBelow(node.listing, at + [name], p))
    ensures !(FileBelow(next, at, p) && (node.File? && p == at + [name]))
    ensures !(FileBelow(next, at, p) && (node.Dir? && FileBelow(node.listing, at + [name], p)))
  {
    PrefixByOne(at, name, p);
    if at + [name] <= p {
      var rest := p[|at|..];
      assert rest[0] == name && p[|at + [name]|..] == rest[1..];
      if |rest| == 1 {
        assert p == at + [name];
      }
    }
  }

  lemma PrefixByOne(at: Path, name: string, p: Path)
    ensures at + [name] <= p <==> at <= p && p[|at|..] != [] && p[|at|..][0] == name
  {
    if at <= p && p[|at|..] != [] && p[|at|..][0] == name {
      assert p == at + p[|at|..];
      assert p[..|at| + 1] == at + [name];
    }
    if at + [name] <= p {
      assert p[|at|] == (at + [name])[|at|];
      assert p[..|at|] == (at + [name])[..|at|] == at;
    }
  }

  /** The recursive listing names each regular file reachable without crossing a symlink, once. */
  lemma {:induction false} FilesInCounts(l: Listing, at: Path, p: Path)
    requires WellNamed(l)
    ensures multiset(FilesIn(l, at))[p] == if FileBelow(l, at, p) then 1 else 0
  {
    match l {
      case End =>
      case Entry(name, node, next) =>
        FilesInCounts(next, at, p);
        FileBelowEntry(name, node, next, at, p);
        if node.Dir? {
          FilesInCounts(node.listing, at + [name], p);
        }
    }
  }

  lemma FilesInExact(l: Listing, p: Path)
    requires WellNamed(l)
    ensures multiset(FilesIn(l, []))[p] == if FileAt(l, p).Some? then 1 else 0
    ensures p in FilesIn(l, []) <==> FileAt(l, p).Some?
  {
    FilesInCounts(l, [], p);
    assert p[0..] == p;
    assert p in FilesIn(l, []) <==> multiset(FilesIn(l, []))[p] > 0;
  }

  // ---- walk_files ----

  function PathOf(root: Listing, d: Path): seq<Path> {
    match DirAt(root, d)
    case None => []
    case Some(l) => FilesIn(l, d)
  }

  /** Files below the directories still on the stack. */
  ghost function Pending(root: Listing, stack: seq<Path>): multiset<Path> {
    if stack == [] then multiset{}
    else Pending(root, stack[..|stack| - 1]) + multiset(PathOf(root, stack[|stack| - 1]))
  }

  function Weight(root: Listing, stack: seq<Path>): nat {
    if stack == [] then 0
    else
      Weight(root, stack[..|stack| - 1])
      + 1 + (match DirAt(root, stack[|stack| - 1]) case None => 0 case Some(l) => Nodes(l))
  }

  lemma {:induction false} DirAtSnoc(root: Listing, d: Path, name: string)
    ensures DirAt(root, d + [name])
            == (match DirAt(root, d)
                case None => None
                case Some(l) => if Find(l, name).Some? && Find(l, name).value.Dir?
                                then Some(Find(l, name).value.listing) else None)
    decreases |d|
  {
    if d == [] {
      assert ([] + [name])[1..] == [];
    } else {
      assert (d + [name])[1..] == d[1..] + [name];
      match Find(root, d[0]) {
        case Some(Dir(sub)) => DirAtSnoc(sub, d[1..], name);
        case _ =>
      }
    }
  }

  lemma {:induction false} DirAtWellNamed(root: Listing, d: Path)
    requires WellNamed(root) && DirAt(root, d).Some?
    ensures WellNamed(DirAt(root, d).value)
    decreases |d|
  {
    if d != [] {
      FindPlain(root, d[0]);
      DirAtWellNamed(Find(root, d[0]).value.listing, d[1..]);
    }
  }

  /** `rest` is what is left of reading `l`. */
  ghost predicate Remaining(rest: Listing, l: Listing) {
    match rest
    case End => true
    case Entry(name, node, next) => Find(l, name) == Some(node) && Remaining(next, l)
  }

  lemma {:induction false} RemainingBehind(rest: Listing, name: string, node: Tree, l: Listing)
    requires Remaining(rest, l) && Find(rest, name).None?
    ensures Remaining(rest, Entry(name, node, l))
  {
    match rest {
      case End =>
      case Entry(_, _, next) => RemainingBehind(next, name, node, l);
    }
  }

  lemma {:induction false} RemainingAll(l: Listing)
    requires WellNamed(l)
    ensures Remaining(l, l)
  {
    match l {
      case End =>
      case Entry(name, node, next) =>
        RemainingAll(next);
        RemainingBehind(next, name, node, next);
    }
  }

  lemma PushDirectory(root: Listing, stack: seq<Path>, d: Path)
    ensures Pending(root, stack + [d]) == Pending(root, stack) + multiset(PathOf(root, d))
    ensures Weight(root, stack + [d])
            == Weight(root, stack) + 1 + (match DirAt(root, d) case None => 0 case Some(l) => Nodes(l))
  {
    assert (stack + [d])[..|stack|] == stack;
  }

  /** Every file that has been found or still will be. */
  ghost function Accounted(root: Listing, result: seq<Path>, stack: seq<Path>, d: Path, read: Listing)
    : multiset<Path>
  {
    multiset(result) + Pending(root, stack) + multiset(FilesIn(read, d))
  }

  lemma FileEntry(root: Listing, result: seq<Path>, stack: seq<Path>, d: Path, read: Listing)
    requires read.Entry? && read.node.File?
    ensures Accounted(root, result + [d + [read.name]], stack, d, read.next)
            == Accounted(root, result, stack, d, read)
    ensures Nodes(read) == 1 + Nodes(read.next)
  {
    assert FilesIn(read, d) == [d + [read.name]] + FilesIn(read.next, d);
  }

  lemma LinkEntry(root: Listing, result: seq<Path>, stack: seq<Path>, d: Path, read: Listing)
    requires read.Entry? && read.node.Symlink?
    ensures Accounted(root, result, stack, d, read.next) == Accounted(root, result, stack, d, read)
    ensures Nodes(read) == 1 + Nodes(read.next)
  {
    assert FilesIn(read, d) == FilesIn(read.next, d);
  }

  lemma DirectoryEntry(root: Listing, result: seq<Path>, stack: seq<Path>, d: Path, read: Listing)
    requires read.Entry? && read.node.Dir?
    requires DirAt(root, d + [read.name]) == Some(read.node.listing)
    ensures Accounted(root, result, stack + [d + [read.name]], d, read.next)
            == Accounted(root, result, stack, d, read)
    ensures Weight(root, stack + [d + [read.name]]) + Nodes(read.next) == Weight(root, stack) + Nodes(read)
  {
    var path := d + [read.name];
    PushDirectory(root, stack, path);
    assert FilesIn(read, d) == FilesIn(read.node.listing, path) + FilesIn(read.next, d);
  }

  lemma PopDirectory(root: Listing, result: seq<Path>, stack: seq<Path>)
    requires stack != [] && DirAt(root, stack[|stack| - 1]).Some?
    ensures var d, rest := stack[|stack| - 1], stack[..|stack| - 1];
            var l := DirAt(root, d).value;
            && multiset(result) + Pending(root, stack) == Accounted(root, result, rest, d, l)
            && Weight(root, rest) + Nodes(l) < Weight(root, stack)
  {}

  /** The walk starts at the directory itself. */
  const TOP: seq<Path> := [[]]

  lemma NothingToWalk()
    ensures FilesIn(End, []) == []
  {}

  lemma StartWalk(root: Listing)
    ensures DirAt(root, []) == Some(root)
    ensures Pending(root, TOP) == multiset(FilesIn(root, []))
    ensures Pending(root, []) == multiset{}
  {
    PushDirectory(root, [], []);
    assert [] + TOP == TOP;
  }

  /** A directory that is not there is walked, and archived, as an empty one. */
  function Contents(root: Option<Listing>): Listing {
    match root
    case None => End
    case Some(l) => l
  }

  /** `walk_files` on the directory `root`, or on a path where there is none: an explicit stack of
      paths and one `read_dir` per popped path. The files found are those of the recursive listing. */
  method WalkFiles(root: Option<Listing>) returns (result: seq<Path>)
    requires WellNamed(Contents(root))
    ensures multiset(result) == multiset(FilesIn(Contents(root), []))
  {
    hide Pending, Weight, FilesIn, Accounted, WellNamed, DirAt, Find, Nodes, PathOf;
    result := [];
    if root.None? {
      NothingToWalk();
      return;
    }
    var top := root.value;
    var stack := TOP;
    StartWalk(top);
    while stack != []
      invariant forall i :: 0 <= i < |stack| ==> DirAt(top, stack[i]).Some?
      invariant multiset(result) + Pending(top, stack) == multiset(FilesIn(top, []))
      decreases Weight(top, stack)
    {
      ghost var before, all := Weight(top, stack), multiset(FilesIn(top, []));
      PopDirectory(top, result, stack);
      var d := stack[|stack| - 1];
      stack := stack[..|stack| - 1];
      var l := DirAt(top, d).value;
      DirAtWellNamed(top, d);
      RemainingAll(l);
      var read := l;
      while read.Entry?
        invariant Remaining(read, l)
        invariant forall i :: 0 <= i < |stack| ==> DirAt(top, stack[i]).Some?
        invariant Accounted(top, result, stack, d, read) == all
        invariant Weight(top, stack) + Nodes(read) < before
        decreases read
      {
        var path := d + [read.name];
        match read.node {
          case Symlink =>
            LinkEntry(top, result, stack, d, read);
          case Dir(sub) =>
            DirAtSnoc(top, d, read.name);
            DirectoryEntry(top, result, stack, d, read);
            stack := stack + [path];
          case File(_) =>
            FileEntry(top, result, stack, d, read);
            result := result + [path];
        }
        read := read.next;
      }
      DirectoryRead(top, result, stack, d);
    }
  }

  lemma DirectoryRead(root: Listing, result: seq<Path>, stack: seq<Path>, d: Path)
    ensures Accounted(root, result, stack, d, End) == multiset(result) + Pending(root, stack)
  {}
}
