// findFile of utils/system_utils.c: a search that walks the tree by changing the
// working directory of the process.
module DirectorySearch {
  import opened Common

  // What a directory listing names. A Dot is "." or ".."; a Gone entry was listed but
  // can no longer be examined, so lstat fails on it. A directory may refuse to be read
  // (opendir) or to be entered (chdir).
  datatype Node =
    | Leaf(name: string)
    | Dot(name: string)
    | Gone(name: string)
    | Dir(name: string, readable: bool, enterable: bool, entries: seq<Node>)

  // A path argument: from the root, or from the working directory.
  datatype Path = Absolute(names: seq<string>) | Relative(names: seq<string>)

  // Names in a directory are distinct, and only Dot entries are called "." or "..".
  predicate WellFormed(n: Node) {
    match n
    case Dir(_, _, _, entries) =>
      !IsDot(n.name) &&
      (forall k :: 0 <= k < |entries| ==> WellFormed(entries[k])) &&
      (forall j, k :: 0 <= j < k < |entries| ==> entries[j].name != entries[k].name)
    case Dot(name) => IsDot(name)
    case _ => !IsDot(n.name)
  }

  function Child(entries: seq<Node>, name: string): Option<Node> {
    if entries == [] then None
    else if entries[0].name == name then Some(entries[0]) else Child(entries[1..], name)
  }

  // The node at a path of plain names below a directory.
  function Lookup(n: Node, path: seq<string>): Option<Node>
    decreases |path|
  {
    if path == [] then Some(n)
    else if !n.Dir? then None
    else match Child(n.entries, path[0])
      case None => None
      case Some(c) => Lookup(c, path[1..])
  }

  function Target(cwd: seq<string>, p: Path): seq<string> {
    match p
    case Absolute(names) => names
    case Relative(names) => cwd + names
  }

  function Parent(path: seq<string>): seq<string> {
    if path == [] then [] else path[..|path| - 1]
  }

  // opendir and chdir both succeed there.
  predicate Enters(root: Node, target: seq<string>) {
    match Lookup(root, target)
    case Some(Dir(_, readable, enterable, _)) => readable && enterable
    case _ => false
  }

  function ListingAt(root: Node, target: seq<string>): seq<Node>
    requires Enters(root, target)
  {
    Lookup(root, target).value.entries
  }

  // How a depth-first walk over a listing ends: at the name, at an entry that cannot be
  // examined, or with neither.
  datatype Walk = Absent | Found | Vanished

  function WalkAll(entries: seq<Node>, search: string): Walk
    decreases entries
  {
    if entries == [] then Absent
    else
      var w := WalkOne(entries[0], search);
      if w == Absent then WalkAll(entries[1..], search) else w
  }

  function WalkOne(n: Node, search: string): Walk
    decreases n
  {
    if n.Gone? then Vanished
    else if n.name == search then Found
    else if n.Dir? && n.readable && n.enterable then WalkAll(n.entries, search)
    else Absent
  }

  // The entries a walk looks at, up to the one it ends in.
  function Reached(entries: seq<Node>, search: string): seq<Node> {
    if entries == [] then []
    else [entries[0]] + if WalkOne(entries[0], search) == Absent then Reached(entries[1..], search) else []
  }

  // Everything the walk can reach, each directory before what it holds.
  function Listed(entries: seq<Node>): seq<Node>
    decreases entries
  {
    if entries == [] then []
    else [entries[0]] + ListedInside(entries[0]) + Listed(entries[1..])
  }

  function ListedInside(n: Node): seq<Node>
    decreases n
  {
    if n.Dir? && n.readable && n.enterable then Listed(n.entries) else []
  }

  // Some reachable entry carries the name.
  ghost predicate Named(entries: seq<Node>, search: string) {
    exists n :: n in Listed(entries) && n.name == search
  }

  // The directory at deep lies at or below the one at target, and all directories from
  // there down can be read and entered.
  ghost predicate Strayed(root: Node, target: seq<string>, deep: seq<string>) {
    target <= deep && forall k :: |target| <= k <= |deep| ==> Enters(root, deep[..k])
  }

  function Height(n: Node): nat
    decreases n
  {
    match n
    case Dir(_, _, _, entries) => 1 + MaxHeight(entries)
    case _ => 0
  }

  function MaxHeight(entries: seq<Node>): nat
    decreases entries
  {
    if entries == [] then 0
    else
      var h, rest := Height(entries[0]), MaxHeight(entries[1..]);
      if h < rest then rest else h
  }

  // lstat of a name in a directory succeeds there, or even reports a directory that
  // the search goes into.
  predicate Examinable(root: Node, cwd: seq<string>, name: string) {
    IsDot(name) ||
    match Lookup(root, cwd + [name])
    case None => false
    case Some(n) => !n.Gone?
  }

  predicate IsSubdirectory(root: Node, cwd: seq<string>, name: string) {
    !IsDot(name) &&
    match Lookup(root, cwd + [name])
    case None => false
    case Some(n) => n.Dir?
  }

  // The answer of a search and the working directory it leaves.
  datatype Outcome = Outcome(found: bool, cwd: seq<string>)

  function Search(root: Node, cwd: seq<string>, target: seq<string>, search: string): (o: Outcome)
    ensures if Enters(root, target) then |o.cwd| >= |target| - 1 else o == Outcome(false, cwd)
    decreases Height(root) - |target|, 1, 0
  {
    if Enters(root, target) then Scan(root, target, ListingAt(root, target), search) else Outcome(false, cwd)
  }

  // The names still to come are looked up in the working directory, wherever that is by
  // then: a search below that fails to come back leaves it too deep.
  function Scan(root: Node, cwd: seq<string>, rest: seq<Node>, search: string): (o: Outcome)
    ensures |o.cwd| >= |cwd| - 1
    decreases Height(root) - |cwd|, 0, |rest|
  {
    if rest == [] then Outcome(false, Parent(cwd))
    else
      var name := rest[0].name;
      if !Examinable(root, cwd, name) then Outcome(false, cwd)
      else if name == search then Outcome(true, Parent(cwd))
      else if IsSubdirectory(root, cwd, name) then
        LookupHeight(root, cwd + [name]);
        var o := Search(root, cwd, cwd + [name], search);
        if o.found then Outcome(true, Parent(o.cwd)) else Scan(root, o.cwd, rest[1..], search)
      else Scan(root, cwd, rest[1..], search)
  }

  // ----------------------------------------------------------------- the code

  // The process: its file system and working directory.
  class Process {
    const root: Node
    var cwd: seq<string>

    constructor (root: Node, cwd: seq<string>)
      ensures this.root == root && this.cwd == cwd
    {
      this.root, this.cwd := root, cwd;
    }

    method OpenDir(p: Path) returns (listing: Option<seq<Node>>)
      ensures match Lookup(root, Target(cwd, p))
              case Some(Dir(_, true, _, entries)) => listing == Some(entries)
              case _ => listing == None
    {
      match Lookup(root, Target(cwd, p)) {
        case Some(Dir(_, true, _, entries)) => listing := Some(entries);
        case _ => listing := None;
      }
    }

    method ChDir(p: Path) returns (ok: bool)
      modifies this
      ensures ok <==> match Lookup(root, Target(old(cwd), p))
                      case Some(Dir(_, _, enterable, _)) => enterable
                      case _ => false
      ensures cwd == if ok then Target(old(cwd), p) else old(cwd)
    {
      match Lookup(root, Target(cwd, p)) {
        case Some(Dir(_, _, true, _)) =>
          cwd := Target(cwd, p);
          ok := true;
        case _ =>
          ok := false;
      }
    }

    method ChDirUp()
      modifies this
      ensures cwd == Parent(old(cwd))
    {
      cwd := Parent(cwd);
    }

    // lstat of a name in the working directory: whether it succeeds, and whether it
    // reports a directory.
    method Lstat(name: string) returns (ok: bool, isDir: bool)
      ensures IsDot(name) ==> ok && isDir
      ensures !IsDot(name) ==>
        match Lookup(root, cwd + [name])
        case None => !ok
        case Some(n) => ok == !n.Gone? && isDir == n.Dir?
    {
      if IsDot(name) {
        return true, true;
      }
      match Lookup(root, cwd + [name]) {
        case None => return false, false;
        case Some(n) => return !n.Gone?, n.Dir?;
      }
    }

    // findFile; both arguments may be missing (NULL).
    method FindFile(dir: Option<Path>, search: Option<string>) returns (found: int)
      modifies this
      ensures found == 0 || found == 1
      ensures Outcome(found == 1, cwd) ==
              if dir == None || search == None then Outcome(false, old(cwd))
              else Search(root, old(cwd), Target(old(cwd), dir.value), search.value)
      ensures dir.Some? && search.Some? && WellFormed(root) && Enters(root, Target(old(cwd), dir.value)) ==>
              Answered(root, Target(old(cwd), dir.value), search.value, Outcome(found == 1, cwd))
      decreases if dir == None then 0 else Height(root) - |Target(cwd, dir.value)|
    {
      found := 0;
      if dir == None || search == None {
        return;
      }
      ghost var target := Target(cwd, dir.value);
      ghost var outcome := Search(root, cwd, target, search.value);
      if WellFormed(root) && Enters(root, target) {
        SearchAnswers(root, cwd, target, search.value);
      }
      var dp := OpenDir(dir.value);
      if dp == None {
        return;
      }
      var entered := ChDir(dir.value);
      if !entered {
        return 0;
      }
      var listing := dp.value;
      var k := 0;
      assert listing[0..] == listing;
      while found == 0 && k < |listing|
        invariant k <= |listing| && (found == 0 || found == 1) && |target| <= |cwd| + found
        invariant outcome == if found == 1 then Outcome(true, Parent(cwd))
                             else Scan(root, cwd, listing[k..], search.value)
        decreases |listing| - k, found == 0
      {
        var entry := listing[k];
        assert listing[k..][0] == entry && listing[k..][1..] == listing[k + 1..];
        k := k + 1;
        var ok, isDir := Lstat(entry.name);
        if !ok {
          return 0;
        }
        if entry.name == search.value {
          found := 1;
          break;
        }
        if isDir {
          if IsDot(entry.name) {
            continue;
          }
          LookupHeight(root, cwd + [entry.name]);
          found := FindFile(Some(Relative([entry.name])), search);
        }
      }
      ChDirUp();
    }
  }

  // ------------------------------------------------------------ path lemmas

  lemma {:induction false} ChildHeight(entries: seq<Node>, name: string)
    requires Child(entries, name).Some?
    ensures Height(Child(entries, name).value) <= MaxHeight(entries)
    ensures Child(entries, name).value in entries && Child(entries, name).value.name == name
  {
    if entries[0].name != name {
      ChildHeight(entries[1..], name);
    }
  }

  lemma {:induction false} LookupHeight(n: Node, path: seq<string>)
    requires Lookup(n, path).Some?
    ensures |path| + Height(Lookup(n, path).value) <= Height(n)
    decreases |path|
  {
    if path != [] {
      ChildHeight(n.entries, path[0]);
      LookupHeight(Child(n.entries, path[0]).value, path[1..]);
    }
  }

  lemma {:induction false} LookupWellFormed(n: Node, path: seq<string>)
    requires WellFormed(n) && Lookup(n, path).Some?
    ensures WellFormed(Lookup(n, path).value)
    decreases |path|
  {
    if path != [] {
      ChildHeight(n.entries, path[0]);
      LookupWellFormed(Child(n.entries, path[0]).value, path[1..]);
    }
  }

  lemma {:induction false} ChildOfDistinct(entries: seq<Node>, k: nat)
    requires k < |entries|
    requires forall i, j :: 0 <= i < j < |entries| ==> entries[i].name != entries[j].name
    ensures Child(entries, entries[k].name) == Some(entries[k])
  {
    if k > 0 {
      assert entries[0].name != entries[k].name;
      ChildOfDistinct(entries[1..], k - 1);
    }
  }

  // A name read from a directory leads to the entry it was listed for.
  lemma {:induction false} LookupChild(n: Node, path: seq<string>, k: nat)
    requires WellFormed(n) && Lookup(n, path).Some? && Lookup(n, path).value.Dir?
    requires k < |Lookup(n, path).value.entries|
    ensures var e := Lookup(n, path).value.entries[k];
      Lookup(n, path + [e.name]) == Some(e)
    decreases |path|
  {
    var e := Lookup(n, path).value.entries[k];
    assert (path + [e.name])[1..] == if path == [] then [] else path[1..] + [e.name];
    if path == [] {
      ChildOfDistinct(n.entries, k);
    } else {
      ChildHeight(n.entries, path[0]);
      LookupChild(Child(n.entries, path[0]).value, path[1..], k);
    }
  }

  // ------------------------------------------------------------ listing lemmas

  lemma {:induction false} ListedHasEntry(entries: seq<Node>, k: nat)
    requires k < |entries|
    ensures entries[k] in Listed(entries)
    ensures forall n :: n in ListedInside(entries[k]) ==> n in Listed(entries)
  {
    if k > 0 {
      ListedHasEntry(entries[1..], k - 1);
    }
  }

  lemma {:induction false} LookupLast(n: Node, path: seq<string>, name: string)
    ensures Lookup(n, path + [name]) ==
            match Lookup(n, path)
            case Some(Dir(_, _, _, entries)) => Child(entries, name)
            case _ => None
    decreases |path|
  {
    if path == [] {
      assert ([] + [name])[1..] == [];
    } else {
      assert (path + [name])[1..] == path[1..] + [name];
      if n.Dir? && Child(n.entries, path[0]).Some? {
        LookupLast(Child(n.entries, path[0]).value, path[1..], name);
      }
    }
  }

  lemma StrayOneMore(root: Node, target: seq<string>, deep: seq<string>, name: string)
    requires Strayed(root, target, deep) && Enters(root, deep + [name])
    ensures Strayed(root, target, deep + [name])
  {
    var d := deep + [name];
    forall k | |target| <= k <= |d| ensures Enters(root, d[..k]) {
      assert d[..k] == if k <= |deep| then deep[..k] else d;
    }
  }

  lemma StrayFurther(root: Node, target: seq<string>, mid: seq<string>, deep: seq<string>)
    requires Strayed(root, target, mid) && Strayed(root, mid, deep)
    ensures Strayed(root, target, deep)
  {
    forall k | |target| <= k <= |deep| ensures Enters(root, deep[..k]) {
      if k <= |mid| {
        assert deep[..k] == mid[..k];
      }
    }
  }

  lemma StrayBack(root: Node, target: seq<string>, deep: seq<string>)
    requires Strayed(root, target, deep) && |target| < |deep|
    ensures Strayed(root, target, Parent(deep))
  {
    var p := Parent(deep);
    forall k | |target| <= k <= |p| ensures Enters(root, p[..k]) {
      assert p[..k] == deep[..k];
    }
  }

  // A name below a directory the process strayed to is below the searched one too.
  lemma {:induction false} NamedBelow(root: Node, target: seq<string>, deep: seq<string>, search: string)
    requires Strayed(root, target, deep)
    ensures Enters(root, target) && Enters(root, deep)
    ensures Named(ListingAt(root, deep), search) ==> Named(ListingAt(root, target), search)
    decreases |deep|
  {
    assert deep[..|deep|] == deep && deep[..|target|] == target;
    if |target| < |deep| {
      var p, name := Parent(deep), deep[|deep| - 1];
      assert deep == p + [name];
      StrayBack(root, target, deep);
      NamedBelow(root, target, p, search);
      LookupLast(root, p, name);
      var above := ListingAt(root, p);
      ChildHeight(above, name);
      var k :| 0 <= k < |above| && above[k] == Child(above, name).value;
      ListedHasEntry(above, k);
    }
  }

  // What a search of a subdirectory reports, seen from the searched directory.
  lemma Descended(root: Node, target: seq<string>, here: seq<string>, name: string, deep: seq<string>, search: string)
    requires Strayed(root, target, here) && Enters(root, here + [name])
    requires deep == here || Strayed(root, here + [name], deep)
    ensures Strayed(root, target, deep) && Enters(root, target)
    ensures Named(ListingAt(root, here + [name]), search) ==> Named(ListingAt(root, target), search)
  {
    StrayOneMore(root, target, here, name);
    NamedBelow(root, target, here + [name], search);
    if deep != here {
      StrayFurther(root, target, here + [name], deep);
    }
  }

  lemma ParentStays(root: Node, base: seq<string>, cwd: seq<string>)
    requires Strayed(root, base, cwd)
    ensures Strayed(root, base, Parent(cwd)) || Parent(cwd) == Parent(base)
  {
    if |base| < |cwd| {
      StrayBack(root, base, cwd);
    } else {
      assert cwd == base;
    }
  }

  // A name that can be examined in a directory the process strayed to.
  lemma NamedThere(root: Node, base: seq<string>, cwd: seq<string>, name: string)
    requires Strayed(root, base, cwd) && Lookup(root, cwd + [name]).Some?
    ensures Enters(root, base) && Named(ListingAt(root, base), name)
  {
    NamedBelow(root, base, cwd, name);
    LookupLast(root, cwd, name);
    var entries := ListingAt(root, cwd);
    ChildHeight(entries, name);
    var k :| 0 <= k < |entries| && entries[k] == Child(entries, name).value;
    ListedHasEntry(entries, k);
  }

  // A search ends at or below the searched directory, or one step above it, and what it
  // finds is there.
  lemma {:induction false} SearchStays(root: Node, cwd: seq<string>, target: seq<string>, search: string)
    requires Enters(root, target)
    ensures var o := Search(root, cwd, target, search);
      && (Strayed(root, target, o.cwd) || o.cwd == Parent(target))
      && (o.found ==> Named(ListingAt(root, target), search))
    decreases Height(root) - |target|, 1, 0
  {
    var entries := ListingAt(root, target);
    assert target[..|target|] == target;
    ScanStays(root, target, target, entries, search);
    if exists k :: 0 <= k < |entries| && entries[k].name == search {
      var k :| 0 <= k < |entries| && entries[k].name == search;
      ListedHasEntry(entries, k);
    }
  }

  // The names looked up may come from any listing.
  lemma {:induction false} ScanStays(root: Node, base: seq<string>, cwd: seq<string>, rest: seq<Node>, search: string)
    requires Strayed(root, base, cwd)
    ensures Enters(root, base)
    ensures var o := Scan(root, cwd, rest, search);
      && (Strayed(root, base, o.cwd) || o.cwd == Parent(base))
      && (o.found && !Named(ListingAt(root, base), search) ==>
            IsDot(search) && exists k :: 0 <= k < |rest| && rest[k].name == search)
    decreases Height(root) - |cwd|, 0, |rest|
  {
    assert base == cwd[..|base|];
    if rest == [] || !Examinable(root, cwd, rest[0].name) || rest[0].name == search {
      ParentStays(root, base, cwd);
      if rest != [] && !IsDot(search) && Lookup(root, cwd + [search]).Some? {
        NamedThere(root, base, cwd, search);
      }
    } else if IsSubdirectory(root, cwd, rest[0].name) {
      var o := ScanBelow(root, base, cwd, rest[0].name, search);
      if o.found {
        ParentStays(root, base, o.cwd);
      } else {
        ScanStays(root, base, o.cwd, rest[1..], search);
      }
    } else {
      ScanStays(root, base, cwd, rest[1..], search);
    }
  }

  lemma {:induction false} ScanBelow(root: Node, base: seq<string>, cwd: seq<string>, name: string, search: string)
    returns (o: Outcome)
    requires Strayed(root, base, cwd) && IsSubdirectory(root, cwd, name)
    ensures |cwd| + 1 <= Height(root) && o == Search(root, cwd, cwd + [name], search)
    ensures Enters(root, base) && Strayed(root, base, o.cwd)
    ensures o.found ==> Named(ListingAt(root, base), search)
    decreases Height(root) - |cwd|, 0, 0
  {
    o := Search(root, cwd, cwd + [name], search);
    LookupHeight(root, cwd + [name]);
    assert base == cwd[..|base|];
    if Enters(root, cwd + [name]) {
      SearchStays(root, cwd, cwd + [name], search);
      Descended(root, base, cwd, name, o.cwd, search);
    }
  }

  // The walk tells how a search ends. As long as nothing has vanished the two agree;
  // after that the process is in the entry that hides what vanished, and finds nothing
  // but what is there.
  ghost predicate EndsAsWalked(root: Node, cwd: seq<string>, rest: seq<Node>, search: string, o: Outcome) {
    match WalkAll(rest, search)
    case Absent => o == Outcome(false, Parent(cwd))
    case Found => o == Outcome(true, Parent(cwd))
    case Vanished =>
      && Strayed(root, cwd, o.cwd)
      && (o.found && !IsDot(search) ==> Named(Reached(rest, search), search))
  }

  lemma {:induction false} SearchWalks(root: Node, cwd: seq<string>, target: seq<string>, search: string)
    requires WellFormed(root) && Enters(root, target)
    ensures EndsAsWalked(root, target, ListingAt(root, target), search, Search(root, cwd, target, search))
    decreases Height(root) - |target|, 1, 0
  {
    ScanWalks(root, target, 0, search);
    assert ListingAt(root, target)[0..] == ListingAt(root, target);
  }

  lemma {:induction false} ScanWalks(root: Node, cwd: seq<string>, k: nat, search: string)
    requires WellFormed(root) && Enters(root, cwd) && k <= |ListingAt(root, cwd)|
    ensures var rest := ListingAt(root, cwd)[k..];
      EndsAsWalked(root, cwd, rest, search, Scan(root, cwd, rest, search))
    decreases Height(root) - |cwd|, 0, |ListingAt(root, cwd)| - k
  {
    var rest := ListingAt(root, cwd)[k..];
    assert cwd[..|cwd|] == cwd;
    if rest != [] {
      var n := rest[0];
      LookupWellFormed(root, cwd);
      LookupChild(root, cwd, k);
      assert rest[1..] == ListingAt(root, cwd)[k + 1..];
      if IsSubdirectory(root, cwd, n.name) && n.name != search {
        ScanDirectory(root, cwd, rest, search);
      }
      if WalkOne(n, search) == Absent {
        ScanWalks(root, cwd, k + 1, search);
        NamedInMore(n, Reached(rest[1..], search), search);
      }
    }
  }

  // The name is that of the entry or of one below it.
  ghost predicate NamedIn(n: Node, search: string) {
    n.name == search || exists m :: m in ListedInside(n) && m.name == search
  }

  lemma NamedInMore(n: Node, more: seq<Node>, search: string)
    ensures Named([n] + more, search) <==> NamedIn(n, search) || Named(more, search)
    ensures Named([n], search) <==> NamedIn(n, search)
  {
    assert ([n] + more)[1..] == more && [n][1..] == [];
    assert Listed([n] + more) == [n] + ListedInside(n) + Listed(more);
    assert Listed([n]) == [n] + ListedInside(n) + Listed([]);
  }

  // A subdirectory that is listed and looked up in the same place.
  lemma {:induction false} ScanDirectory(root: Node, cwd: seq<string>, rest: seq<Node>, search: string)
    requires WellFormed(root) && Enters(root, cwd) && rest != [] && IsSubdirectory(root, cwd, rest[0].name)
    requires Lookup(root, cwd + [rest[0].name]) == Some(rest[0]) && rest[0].name != search
    ensures var n, o := rest[0], Scan(root, cwd, rest, search);
      match WalkOne(n, search)
      case Absent => o == Scan(root, cwd, rest[1..], search)
      case Found => o == Outcome(true, Parent(cwd))
      case Vanished => EndsAsWalked(root, cwd, rest, search, o)
    decreases Height(root) - |cwd|, 0, 0
  {
    var n := rest[0];
    var deep := cwd + [n.name];
    LookupHeight(root, deep);
    if Enters(root, deep) {
      SearchWalks(root, cwd, deep, search);
      if WalkOne(n, search) == Vanished {
        ScanAstray(root, cwd, rest, search);
      }
    }
  }

  lemma ScanAstray(root: Node, cwd: seq<string>, rest: seq<Node>, search: string)
    requires Enters(root, cwd) && rest != [] && IsSubdirectory(root, cwd, rest[0].name)
    requires Lookup(root, cwd + [rest[0].name]) == Some(rest[0]) && rest[0].name != search
    requires Enters(root, cwd + [rest[0].name]) && WalkOne(rest[0], search) == Vanished
    requires Strayed(root, cwd + [rest[0].name], Search(root, cwd, cwd + [rest[0].name], search).cwd)
    ensures EndsAsWalked(root, cwd, rest, search, Scan(root, cwd, rest, search))
  {
    var n, deep := rest[0], cwd + [rest[0].name];
    var below, o := Search(root, cwd, deep, search), Scan(root, cwd, rest, search);
    LookupHeight(root, deep);
    SearchStays(root, cwd, deep, search);
    NamedInMore(n, [], search);
    if below.found {
      ParentStays(root, deep, below.cwd);
    } else {
      ScanStays(root, deep, below.cwd, rest[1..], search);
    }
    assert cwd[..|cwd|] == cwd && Parent(deep) == cwd;
    StrayOneMore(root, cwd, cwd, n.name);
    if Strayed(root, deep, o.cwd) {
      StrayFurther(root, cwd, deep, o.cwd);
    }
  }

  // --------------------------------------------------------------- properties

  // The first listed entry that matters cannot be examined, or carries the name.
  predicate GoneFirst(listed: seq<Node>, search: string) {
    exists k :: 0 <= k < |listed| && listed[k].Gone? && forall j :: 0 <= j < k ==> listed[j].name != search
  }

  predicate NameFirst(listed: seq<Node>, search: string) {
    exists k :: 0 <= k < |listed| && listed[k].name == search && forall j :: 0 <= j <= k ==> !listed[j].Gone?
  }

  // The walk over a plain list.
  function WalkList(listed: seq<Node>, search: string): Walk {
    if listed == [] then Absent
    else if listed[0].Gone? then Vanished
    else if listed[0].name == search then Found
    else WalkList(listed[1..], search)
  }

  lemma {:induction false} WalkListInParts(a: seq<Node>, b: seq<Node>, search: string)
    ensures WalkList(a + b, search) ==
            if WalkList(a, search) != Absent then WalkList(a, search) else WalkList(b, search)
  {
    if a == [] {
      assert a + b == b;
    } else {
      assert (a + b)[1..] == a[1..] + b;
      WalkListInParts(a[1..], b, search);
    }
  }

  lemma {:induction false} WalkIsWalkList(entries: seq<Node>, search: string)
    ensures WalkAll(entries, search) == WalkList(Listed(entries), search)
    decreases entries
  {
    if entries != [] {
      WalkOneIsWalkList(entries[0], search);
      WalkIsWalkList(entries[1..], search);
      WalkListInParts([entries[0]] + ListedInside(entries[0]), Listed(entries[1..]), search);
    }
  }

  lemma {:induction false} WalkOneIsWalkList(n: Node, search: string)
    ensures WalkOne(n, search) == WalkList([n] + ListedInside(n), search)
    decreases n
  {
    assert ([n] + ListedInside(n))[1..] == ListedInside(n);
    if n.Dir? && n.readable && n.enterable {
      WalkIsWalkList(n.entries, search);
    }
  }

  // Where the walk over a list ends, or the length of the list.
  function StopsAt(listed: seq<Node>, search: string, k: nat): (p: nat)
    requires k <= |listed|
    ensures k <= p <= |listed|
    ensures p < |listed| ==> listed[p].Gone? || listed[p].name == search
    ensures forall j :: k <= j < p ==> !listed[j].Gone? && listed[j].name != search
    decreases |listed| - k
  {
    if k == |listed| || listed[k].Gone? || listed[k].name == search then k else StopsAt(listed, search, k + 1)
  }

  lemma {:induction false} WalkSkips(listed: seq<Node>, search: string, k: nat)
    requires k <= |listed| && forall j :: 0 <= j < k ==> !listed[j].Gone? && listed[j].name != search
    ensures WalkList(listed, search) == WalkList(listed[k..], search)
  {
    if k == 0 {
      assert listed[0..] == listed;
    } else {
      WalkSkips(listed, search, k - 1);
      assert listed[k - 1..][1..] == listed[k..];
    }
  }

  lemma WalkListIff(listed: seq<Node>, search: string)
    ensures WalkList(listed, search) == Vanished <==> GoneFirst(listed, search)
    ensures WalkList(listed, search) == Found <==> NameFirst(listed, search)
  {
    var p := StopsAt(listed, search, 0);
    WalkSkips(listed, search, p);
    if p < |listed| {
      assert listed[p..][0] == listed[p];
    }
  }

  // How the walk ends, read off the tree: it meets a vanished entry exactly when one is
  // listed and no entry before it has the name, and finds the name exactly when an entry
  // has it and none up to there has vanished.
  lemma WalkIff(entries: seq<Node>, search: string)
    ensures WalkAll(entries, search) == Vanished <==> GoneFirst(Listed(entries), search)
    ensures WalkAll(entries, search) == Found <==> NameFirst(Listed(entries), search)
  {
    WalkIsWalkList(entries, search);
    WalkListIff(Listed(entries), search);
  }

  // When no reachable entry has vanished the walk decides whether the name occurs.
  lemma WalkDecides(entries: seq<Node>, search: string)
    requires forall n :: n in Listed(entries) ==> !n.Gone?
    ensures WalkAll(entries, search) == if Named(entries, search) then Found else Absent
  {
    WalkIff(entries, search);
    var l := Listed(entries);
    if Named(entries, search) {
      var k :| 0 <= k < |l| && l[k].name == search;
    }
  }

  // Every answer of a search, on a tree in which anything may have vanished.
  ghost predicate Answered(root: Node, target: seq<string>, search: string, o: Outcome)
    requires Enters(root, target)
  {
    var entries := ListingAt(root, target);
    && (!GoneFirst(Listed(entries), search) ==> o == Outcome(NameFirst(Listed(entries), search), Parent(target)))
    && (GoneFirst(Listed(entries), search) ==> Strayed(root, target, o.cwd))
    && (o.found ==> Named(entries, search))
    && (o.found && !IsDot(search) ==> Named(Reached(entries, search), search))
  }

  lemma SearchAnswers(root: Node, cwd: seq<string>, target: seq<string>, search: string)
    requires WellFormed(root) && Enters(root, target)
    ensures Answered(root, target, search, Search(root, cwd, target, search))
  {
    var entries := ListingAt(root, target);
    SearchWalks(root, cwd, target, search);
    SearchStays(root, cwd, target, search);
    WalkIff(entries, search);
    ReachedAll(entries, search);
  }

  lemma {:induction false} ReachedAll(entries: seq<Node>, search: string)
    ensures Named(Reached(entries, search), search) ==> Named(entries, search)
    ensures WalkAll(entries, search) != Vanished && Named(entries, search) ==> Named(Reached(entries, search), search)
  {
    if entries != [] {
      var n, more := entries[0], entries[1..];
      assert entries == [n] + more;
      ReachedAll(more, search);
      NamedInMore(n, more, search);
      NamedInMore(n, Reached(more, search), search);
      if WalkOne(n, search) != Absent {
        assert Reached(entries, search) == [n];
      }
      if WalkOne(n, search) == Found {
        WalkOneIsWalkList(n, search);
        WalkListIff([n] + ListedInside(n), search);
      }
    }
  }

  lemma {:induction false} AbsentName(listed: seq<Node>, search: string)
    requires WalkList(listed, search) == Absent
    ensures forall k :: 0 <= k < |listed| ==> listed[k].name != search
  {
    if listed != [] {
      AbsentName(listed[1..], search);
      assert listed == [listed[0]] + listed[1..];
    }
  }

  lemma NameFirstIff(listed: seq<Node>, search: string)
    requires !GoneFirst(listed, search)
    ensures NameFirst(listed, search) <==> exists n :: n in listed && n.name == search
  {
    WalkListIff(listed, search);
    if WalkList(listed, search) == Absent {
      AbsentName(listed, search);
    } else {
      var k :| 0 <= k < |listed| && listed[k].name == search;
    }
  }

  // When the name is not among what the walk reaches before something vanished, the
  // answer is right exactly when nothing vanished first or the name is nowhere.
  lemma RightIff(root: Node, cwd: seq<string>, target: seq<string>, search: string)
    requires WellFormed(root) && Enters(root, target) && !IsDot(search)
    requires var entries := ListingAt(root, target);
      GoneFirst(Listed(entries), search) ==> !Named(Reached(entries, search), search)
    ensures var o, entries := Search(root, cwd, target, search), ListingAt(root, target);
      (o.found <==> Named(entries, search)) <==> !GoneFirst(Listed(entries), search) || !Named(entries, search)
  {
    SearchAnswers(root, cwd, target, search);
    var listed := Listed(ListingAt(root, target));
    if !GoneFirst(listed, search) {
      NameFirstIff(listed, search);
    }
  }

  // A search of a path from the root does not depend on where the process is.
  lemma AbsoluteFromAnywhere(root: Node, a: seq<string>, b: seq<string>, names: seq<string>, search: string)
    ensures var x := Search(root, a, Target(a, Absolute(names)), search);
      var y := Search(root, b, Target(b, Absolute(names)), search);
      && x.found == y.found
      && if Enters(root, names) then x.cwd == y.cwd else x.cwd == a && y.cwd == b
  {
  }

  // The listing is what it should be: every entry of every directory that can be reached
  // through directories that can be read and entered, and nothing else.
  ghost predicate ReachedAt(root: Node, target: seq<string>, n: Node, deep: seq<string>) {
    Strayed(root, target, deep) && Enters(root, deep) && n in ListingAt(root, deep)
  }

  lemma ListedIff(root: Node, target: seq<string>, n: Node)
    requires WellFormed(root) && Enters(root, target)
    ensures n in Listed(ListingAt(root, target)) <==> exists deep :: ReachedAt(root, target, n, deep)
  {
    if n in Listed(ListingAt(root, target)) {
      var deep := ListedIsReached(root, target, 0, n);
    }
    if deep :| ReachedAt(root, target, n, deep) {
      ReachedIsListed(root, target, deep, n);
    }
  }

  lemma {:induction false} ReachedIsListed(root: Node, target: seq<string>, deep: seq<string>, n: Node)
    requires Strayed(root, target, deep)
    ensures Enters(root, target) && Enters(root, deep)
    ensures n in Listed(ListingAt(root, deep)) ==> n in Listed(ListingAt(root, target))
    ensures n in ListingAt(root, deep) ==> n in Listed(ListingAt(root, target))
    decreases |deep|
  {
    assert deep[..|deep|] == deep && deep[..|target|] == target;
    var entries := ListingAt(root, deep);
    if n in entries {
      var k :| 0 <= k < |entries| && entries[k] == n;
      ListedHasEntry(entries, k);
    }
    if |target| < |deep| {
      var p, name := Parent(deep), deep[|deep| - 1];
      assert deep == p + [name];
      StrayBack(root, target, deep);
      ReachedIsListed(root, target, p, n);
      LookupLast(root, p, name);
      var above := ListingAt(root, p);
      ChildHeight(above, name);
      var k :| 0 <= k < |above| && above[k] == Child(above, name).value;
      ListedHasEntry(above, k);
    }
  }

  lemma {:induction false} ListedIsReached(root: Node, cwd: seq<string>, k: nat, n: Node) returns (deep: seq<string>)
    requires WellFormed(root) && Enters(root, cwd) && k <= |ListingAt(root, cwd)|
    requires n in Listed(ListingAt(root, cwd)[k..])
    ensures ReachedAt(root, cwd, n, deep)
    decreases Height(root) - |cwd|, |ListingAt(root, cwd)| - k
  {
    var rest := ListingAt(root, cwd)[k..];
    var e := rest[0];
    assert rest[1..] == ListingAt(root, cwd)[k + 1..] && cwd[..|cwd|] == cwd;
    LookupWellFormed(root, cwd);
    LookupHeight(root, cwd);
    LookupChild(root, cwd, k);
    if n == e {
      deep := cwd;
    } else if n in ListedInside(e) {
      LookupHeight(root, cwd + [e.name]);
      assert ListingAt(root, cwd + [e.name])[0..] == e.entries;
      deep := ListedIsReached(root, cwd + [e.name], 0, n);
      StrayOneMore(root, cwd, cwd, e.name);
      StrayFurther(root, cwd, cwd + [e.name], deep);
    } else {
      deep := ListedIsReached(root, cwd, k + 1, n);
    }
  }

  // The search goes up once, so a call that finds its directory leaves the process where
  // it was exactly when that directory was directly below (or is the root, from the root).
  lemma RestoredIff(cwd: seq<string>, dir: Path)
    ensures Parent(Target(cwd, dir)) == cwd <==>
      (exists name :: Target(cwd, dir) == cwd + [name]) || (cwd == [] && Target(cwd, dir) == [])
    ensures dir.Relative? ==>
      (Parent(Target(cwd, dir)) == cwd <==> |dir.names| == 1 || (dir.names == [] && cwd == []))
  {
    var t := Target(cwd, dir);
    if t != [] {
      assert t == Parent(t) + [t[|t| - 1]];
    }
    if dir.Relative? && |dir.names| == 1 {
      assert Parent(t) == cwd;
    }
  }

  // So such a call leaves the process where it was exactly when it names one directory
  // and no vanished entry is listed in there before the name.
  lemma SearchRestoresIff(root: Node, cwd: seq<string>, names: seq<string>, search: string)
    requires WellFormed(root) && Enters(root, cwd + names) && names != []
    ensures var entries := ListingAt(root, cwd + names);
      Search(root, cwd, cwd + names, search).cwd == cwd <==>
      |names| == 1 && !GoneFirst(Listed(entries), search)
  {
    SearchAnswers(root, cwd, cwd + names, search);
    RestoredIff(cwd, Relative(names));
  }

  // The directory "s", holding a vanished entry and what is given, and then "x".
  function TreeWith(more: seq<Node>): Node {
    Dir("r", true, true, [Dir("s", true, true, [Gone("g")] + more), Leaf("x")])
  }

  lemma PathsInTree(more: seq<Node>)
    requires more == [] || more == [Leaf("x")]
    ensures var root := TreeWith(more);
      && WellFormed(root)
      && Lookup(root, []) == Some(root) && Lookup(root, [] + ["s"]) == Some(root.entries[0])
      && Lookup(root, ["s"] + ["g"]) == Some(Gone("g"))
      && Lookup(root, ["s"] + ["x"]) == if more == [] then None else Some(Leaf("x"))
  {
    var root, path := TreeWith(more), ["s"];
    var s := root.entries[0];
    assert ([] + path)[1..] == [] && Child(root.entries, "s") == Some(s);
    assert s.entries[1..] == more && (more != [] ==> more[1..] == []);
    LookupLast(root, path, "g");
    LookupLast(root, path, "x");
  }

  // On it the search strays into "s" and looks "x" up there.
  lemma StraysInTree(more: seq<Node>)
    requires more == [] || more == [Leaf("x")]
    ensures Search(TreeWith(more), [], [], "x") == if more == [] then Outcome(false, ["s"]) else Outcome(true, [])
  {
    PathsInTree(more);
    var root := TreeWith(more);
    var entries := root.entries;
    assert [] + ["s"] == ["s"] && entries[1..] == [Leaf("x")];
    assert Search(root, [], ["s"], "x") == Scan(root, ["s"], [Gone("g")] + more, "x") == Outcome(false, ["s"]);
    assert Scan(root, [], entries, "x") == Scan(root, ["s"], entries[1..], "x");
  }

  lemma ListedInTree(more: seq<Node>)
    ensures Listed(TreeWith(more).entries) == [TreeWith(more).entries[0], Gone("g")] + Listed(more) + [Leaf("x")]
  {
    var entries, inner := TreeWith(more).entries, [Gone("g")] + more;
    assert inner[1..] == more && entries[1..] == [Leaf("x")] && entries[1..][1..] == [];
    assert Listed(inner) == [Gone("g")] + [] + Listed(more);
    assert Listed(entries[1..]) == [Leaf("x")];
  }

  // A file vanishing from a subdirectory hides a name listed after it.
  lemma VanishedHidesName()
    ensures var root := TreeWith([]);
      && WellFormed(root) && Enters(root, []) && Named(ListingAt(root, []), "x")
      && !Search(root, [], [], "x").found
  {
    PathsInTree([]);
    StraysInTree([]);
    ListedInTree([]);
    var l := Listed(TreeWith([]).entries);
    assert l[|l| - 1].name == "x";
  }

  // With another file of that name behind the vanished one the answer is right, but by
  // accident: the name is looked up in the wrong directory.
  lemma FoundAstray()
    ensures var root := TreeWith([Leaf("x")]);
      && WellFormed(root) && Enters(root, []) && GoneFirst(Listed(ListingAt(root, [])), "x")
      && Search(root, [], [], "x").found
  {
    PathsInTree([Leaf("x")]);
    StraysInTree([Leaf("x")]);
    ListedInTree([Leaf("x")]);
    assert Listed(TreeWith([Leaf("x")]).entries)[1] == Gone("g");
  }
}
