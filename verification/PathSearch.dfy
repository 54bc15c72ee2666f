// The searches of utils/system_utils.c that build paths: findPFile stops at the first
// match, findPFileAll fills a list of buffers up to a cap.
module PathSearch {
  import opened Common

  // A directory entry as readdir gives it; readable says whether opendir succeeds.
  datatype Entry = File(name: string) | Dir(name: string, readable: bool, entries: seq<Entry>)

  // An output slot of the caller: a missing buffer, or one with its text.
  datatype Slot = NoBuffer | Buffer(text: string)

  class TextBuffer {
    var text: string
  }

  class IntCell {
    var value: nat
  }

  function FullPath(base: string, name: string): string {
    base + "/" + name
  }

  // What a search looks for, and for which paths construct_full_path finds memory.
  datatype Query = Query(wanted: string -> bool, alloc: string -> bool)

  // The paths of all matching files below path, in the order of a depth-first walk; a
  // directory whose path cannot be built is passed over.
  function Matches(path: string, entries: seq<Entry>, q: Query): seq<string>
    decreases entries
  {
    if entries == [] then []
    else MatchesOf(path, entries[0], q) + Matches(path, entries[1..], q)
  }

  function MatchesOf(path: string, e: Entry, q: Query): seq<string>
    decreases e
  {
    if IsDot(e.name) then []
    else match e
      case Dir(name, readable, entries) =>
        if readable && q.alloc(FullPath(path, name)) then Matches(FullPath(path, name), entries, q) else []
      case File(name) => if q.wanted(name) then [FullPath(path, name)] else []
  }

  // The same from the top, where the path may be missing (NULL) or not open.
  function MatchesFrom(path: Option<string>, readable: bool, entries: seq<Entry>, q: Query): seq<string> {
    if path.Some? && readable then Matches(path.value, entries, q) else []
  }

  // construct_full_path.
  function Constructed(path: string, name: string, q: Query): Option<string> {
    if q.alloc(FullPath(path, name)) then Some(FullPath(path, name)) else None
  }

  // findPFile; the stream of path yields entries when it opens, and path, search and
  // out may be missing (NULL).
  method FindPFile(path: Option<string>, readable: bool, entries: seq<Entry>, search: Option<Query>, out: TextBuffer?)
    returns (found: int)
    modifies out
    ensures path == None || search == None || out == null ==>
              found == 0 && (out != null ==> out.text == old(out.text))
    ensures path.Some? && search.Some? && out != null ==>
              var all := MatchesFrom(path, readable, entries, search.value);
              && found == (if all == [] then 0 else 1)
              && out.text == if all != [] && search.value.alloc(all[0]) then all[0] else old(out.text)
    decreases entries
  {
    found := 0;
    if path == None || search == None || out == null || !readable {
      return;
    }
    var p, q := path.value, search.value;
    ghost var all := Matches(p, entries, q);
    var k := 0;
    while found == 0 && k < |entries|
      invariant k <= |entries| && (found == 0 || found == 1)
      invariant found == 0 ==> out.text == old(out.text) && all == Matches(p, entries[k..], q)
      invariant found == 1 ==> all != []
      invariant found == 1 ==> out.text == if q.alloc(all[0]) then all[0] else old(out.text)
      decreases |entries| - k
    {
      var entry := entries[k];
      assert entries[k..][0] == entry && entries[k..][1..] == entries[k + 1..];
      k := k + 1;
      if IsDot(entry.name) {
        continue;
      }
      match entry {
        case Dir(name, r, below) =>
          found := FindPFile(Constructed(p, name, q), r, below, search, out);
        case File(name) =>
          if q.wanted(name) {
            var constructed := Constructed(p, name, q);
            if constructed.Some? {
              out.text := constructed.value;
            }
            found := 1;
          }
      }
    }
  }

  // ------------------------------------------------------------- the full list

  datatype Search = Search(slots: seq<Slot>, found: nat, full: bool)

  function Put(s: Search, path: string, maxList: int): (t: Search)
    requires s.found < |s.slots|
    ensures |t.slots| == |s.slots|
  {
    var t := if s.slots[s.found] == NoBuffer then s
             else s.(slots := s.slots[s.found := Buffer(path)], found := s.found + 1);
    t.(full := t.found >= maxList)
  }

  // Every slot that offering the paths looks at exists.
  predicate CanTake(s: Search, paths: seq<string>, maxList: int)
    decreases |paths|
  {
    s.full || paths == [] ||
    (s.found < |s.slots| && CanTake(Put(s, paths[0], maxList), paths[1..], maxList))
  }

  // Offering paths one by one until the search is full.
  function Collect(s: Search, paths: seq<string>, maxList: int): (t: Search)
    requires CanTake(s, paths, maxList)
    ensures |t.slots| == |s.slots|
    decreases |paths|
  {
    if paths == [] || s.full then s else Collect(Put(s, paths[0], maxList), paths[1..], maxList)
  }

  lemma {:induction false} CollectInParts(s: Search, a: seq<string>, b: seq<string>, maxList: int)
    requires CanTake(s, a + b, maxList)
    ensures CanTake(s, a, maxList) && CanTake(Collect(s, a, maxList), b, maxList)
    ensures Collect(s, a + b, maxList) == Collect(Collect(s, a, maxList), b, maxList)
    decreases |a|
  {
    if a == [] {
      assert a + b == b;
    } else if !s.full {
      assert (a + b)[0] == a[0] && (a + b)[1..] == a[1..] + b;
      CollectInParts(Put(s, a[0], maxList), a[1..], b, maxList);
    }
  }

  lemma CollectOne(s: Search, path: string, maxList: int)
    requires !s.full
    ensures CanTake(s, [path], maxList) <==> s.found < |s.slots|
    ensures s.found < |s.slots| ==> Collect(s, [path], maxList) == Put(s, path, maxList)
  {
  }

  // A matching file: its path is stored if there is a buffer for it.
  method Offer(path: string, out: array<Slot>, foundT: IntCell, maxList: int) returns (found: int)
    requires foundT.value < out.Length
    modifies out, foundT
    ensures found == 0 || found == 1
    ensures var s := Search(old(out[..]), old(foundT.value), false);
      Search(out[..], foundT.value, found == 1) == Put(s, path, maxList)
  {
    found := 0;
    if out[foundT.value] != NoBuffer {
      out[foundT.value] := Buffer(path);
      foundT.value := foundT.value + 1;
    }
    if foundT.value >= maxList {
      found := 1;
    }
  }

  // findPFileAll; out must have the slots the search looks at. The pointers may be
  // missing (NULL).
  method FindPFileAll(path: Option<string>, readable: bool, entries: seq<Entry>, search: Option<Query>,
                      out: array?<Slot>, foundT: IntCell?, maxList: int)
    returns (found: int)
    requires search.Some? && out != null && foundT != null ==>
               CanTake(Search(out[..], foundT.value, false),
                       MatchesFrom(path, readable, entries, search.value), maxList)
    modifies out, foundT
    ensures found == 0 || found == 1
    ensures path == None || search == None || out == null || foundT == null ==>
              && found == 0
              && (out != null ==> out[..] == old(out[..]))
              && (foundT != null ==> foundT.value == old(foundT.value))
    ensures search.Some? && out != null && foundT != null ==>
              Search(out[..], foundT.value, found == 1) ==
              Collect(Search(old(out[..]), old(foundT.value), false),
                      MatchesFrom(path, readable, entries, search.value), maxList)
    decreases entries
  {
    found := 0;
    if path == None || search == None || out == null || foundT == null || !readable {
      return;
    }
    var p, q := path.value, search.value;
    ghost var now := Search(out[..], foundT.value, false);
    ghost var goal := Collect(now, Matches(p, entries, q), maxList);
    var k := 0;
    assert entries[0..] == entries;
    while found == 0 && k < |entries|
      invariant k <= |entries| && (found == 0 || found == 1)
      invariant now == Search(out[..], foundT.value, found == 1)
      invariant CanTake(now, Matches(p, entries[k..], q), maxList)
      invariant goal == Collect(now, Matches(p, entries[k..], q), maxList)
      decreases |entries| - k
    {
      var entry := entries[k];
      assert entries[k..][0] == entry && entries[k..][1..] == entries[k + 1..];
      CollectInParts(now, MatchesOf(p, entry, q), Matches(p, entries[k + 1..], q), maxList);
      now := Collect(now, MatchesOf(p, entry, q), maxList);
      k := k + 1;
      found := VisitEntry(p, entry, q, out, foundT, maxList);
    }
  }

  // One turn of its loop.
  method VisitEntry(p: string, entry: Entry, q: Query, out: array<Slot>, foundT: IntCell, maxList: int)
    returns (found: int)
    requires CanTake(Search(out[..], foundT.value, false), MatchesOf(p, entry, q), maxList)
    modifies out, foundT
    ensures found == 0 || found == 1
    ensures Search(out[..], foundT.value, found == 1) ==
            Collect(Search(old(out[..]), old(foundT.value), false), MatchesOf(p, entry, q), maxList)
    decreases entry
  {
    found := 0;
    if IsDot(entry.name) {
      return;
    }
    match entry {
      case Dir(name, r, below) =>
        assert MatchesOf(p, entry, q) == MatchesFrom(Constructed(p, name, q), r, below, q);
        found := FindPFileAll(Constructed(p, name, q), r, below, Some(q), out, foundT, maxList);
      case File(name) =>
        if q.wanted(name) {
          CollectOne(Search(out[..], foundT.value, false), FullPath(p, name), maxList);
          found := Offer(FullPath(p, name), out, foundT, maxList);
        }
    }
  }

  // --------------------------------------------------------------- properties

  // A wanted file has this full path somewhere below path.
  predicate HasMatch(path: string, entries: seq<Entry>, q: Query, full: string)
    decreases entries
  {
    exists k :: 0 <= k < |entries| && IsMatch(path, entries[k], q, full)
  }

  predicate IsMatch(path: string, e: Entry, q: Query, full: string)
    decreases e
  {
    !IsDot(e.name) &&
    match e
    case File(name) => q.wanted(name) && full == FullPath(path, name)
    case Dir(name, readable, entries) =>
      readable && q.alloc(FullPath(path, name)) && HasMatch(FullPath(path, name), entries, q, full)
  }

  // The walk lists the wanted files and nothing else.
  lemma {:induction false} MatchesIff(path: string, entries: seq<Entry>, q: Query, full: string)
    ensures full in Matches(path, entries, q) <==> HasMatch(path, entries, q, full)
    decreases entries
  {
    if entries != [] {
      MatchesOfIff(path, entries[0], q, full);
      MatchesIff(path, entries[1..], q, full);
      if HasMatch(path, entries[1..], q, full) {
        var k :| 0 <= k < |entries[1..]| && IsMatch(path, entries[1..][k], q, full);
        assert entries[k + 1] == entries[1..][k];
      }
      if HasMatch(path, entries, q, full) {
        var k :| 0 <= k < |entries| && IsMatch(path, entries[k], q, full);
        assert k > 0 ==> entries[1..][k - 1] == entries[k];
      }
    }
  }

  lemma {:induction false} MatchesOfIff(path: string, e: Entry, q: Query, full: string)
    ensures full in MatchesOf(path, e, q) <==> IsMatch(path, e, q, full)
    decreases e
  {
    if e.Dir? && e.readable && q.alloc(FullPath(path, e.name)) && !IsDot(e.name) {
      MatchesIff(FullPath(path, e.name), e.entries, q, full);
    }
  }

  // How many slots in a row have a buffer, from a place on.
  function BuffersFrom(slots: seq<Slot>, k: nat): nat
    decreases |slots| - k
  {
    if k < |slots| && slots[k] != NoBuffer then 1 + BuffersFrom(slots, k + 1) else 0
  }

  // The search makes room for the missing results, and for one even at the cap.
  function Room(found: nat, maxList: int): nat {
    if found < maxList then maxList - found else 1
  }

  function Taken(s: Search, paths: seq<string>, maxList: int): nat {
    Min(|paths|, Min(Room(s.found, maxList), BuffersFrom(s.slots, s.found)))
  }

  lemma {:induction false} BuffersStay(slots: seq<Slot>, at: nat, k: nat, path: string)
    requires at < k <= |slots|
    ensures BuffersFrom(slots[at := Buffer(path)], k) == BuffersFrom(slots, k)
    decreases |slots| - k
  {
    if k < |slots| {
      BuffersStay(slots, at, k + 1, path);
    }
  }

  lemma StuckSearch(s: Search, paths: seq<string>, maxList: int)
    requires !s.full && s.found < |s.slots| && s.slots[s.found] == NoBuffer
    ensures CanTake(s, paths, maxList)
    ensures var t := Collect(s, paths, maxList);
      t.slots == s.slots && t.found == s.found && (t.full <==> paths != [] && s.found >= maxList)
    decreases |paths|
  {
  }

  // Which slots those are: a missing buffer stops the search, and otherwise there must
  // be one for each path, up to the cap.
  lemma {:induction false} CanTakeIff(s: Search, paths: seq<string>, maxList: int)
    requires !s.full
    ensures var buffers := BuffersFrom(s.slots, s.found);
      CanTake(s, paths, maxList) <==>
      paths == [] ||
      (s.found < |s.slots| &&
       (s.found + buffers < |s.slots| || Min(|paths|, Room(s.found, maxList)) <= buffers))
    decreases |paths|
  {
    if paths != [] && s.found < |s.slots| {
      if s.slots[s.found] == NoBuffer {
        StuckSearch(s, paths, maxList);
      } else {
        var t := Put(s, paths[0], maxList);
        BuffersStay(s.slots, s.found, s.found + 1, paths[0]);
        BuffersInside(s.slots, s.found + 1);
        if !t.full {
          CanTakeIff(t, paths[1..], maxList);
        }
      }
    }
  }

  lemma {:induction false} BuffersInside(slots: seq<Slot>, k: nat)
    requires k <= |slots|
    ensures k + BuffersFrom(slots, k) <= |slots|
    decreases |slots| - k
  {
    if k < |slots| {
      BuffersInside(slots, k + 1);
    }
  }

  // The result in closed form: a prefix of the matches is stored in consecutive slots,
  // as long as the cap and the buffers allow; nothing else changes; the answer is 1
  // exactly when something matched and the count is at the cap.
  lemma {:induction false} CollectStoresPrefix(s: Search, paths: seq<string>, maxList: int)
    requires CanTake(s, paths, maxList) && !s.full
    ensures var t, k := Collect(s, paths, maxList), Taken(s, paths, maxList);
      && t.found == s.found + k && (k > 0 ==> t.found <= |t.slots|) && |t.slots| == |s.slots|
      && (forall j :: 0 <= j < |s.slots| ==>
            t.slots[j] == if s.found <= j < s.found + k then Buffer(paths[j - s.found]) else s.slots[j])
      && (t.full <==> paths != [] && s.found + k >= maxList)
    decreases |paths|
  {
    if paths == [] {
    } else if s.slots[s.found] == NoBuffer {
      StuckSearch(s, paths, maxList);
    } else {
      var t := Put(s, paths[0], maxList);
      BuffersStay(s.slots, s.found, s.found + 1, paths[0]);
      if !t.full {
        CollectStoresPrefix(t, paths[1..], maxList);
      }
    }
  }

  // With every buffer present and room left, exactly the first missing results are
  // stored and the answer is 1 exactly when the cap is reached.
  lemma CappedSearch(slots: seq<Slot>, found: nat, paths: seq<string>, maxList: int)
    requires found < maxList && found + Min(|paths|, maxList - found) <= |slots|
    requires forall j :: 0 <= j < |slots| ==> slots[j] != NoBuffer
    ensures CanTake(Search(slots, found, false), paths, maxList)
    ensures var t := Collect(Search(slots, found, false), paths, maxList);
      var k := Min(|paths|, maxList - found);
      && t.found == found + k <= maxList
      && (forall j :: 0 <= j < k ==> t.slots[found + j] == Buffer(paths[j]))
      && (t.full <==> t.found == maxList)
  {
    AllBuffers(slots, found);
    CanTakeIff(Search(slots, found, false), paths, maxList);
    CollectStoresPrefix(Search(slots, found, false), paths, maxList);
  }

  lemma {:induction false} AllBuffers(slots: seq<Slot>, k: nat)
    requires k <= |slots| && forall j :: 0 <= j < |slots| ==> slots[j] != NoBuffer
    ensures BuffersFrom(slots, k) == |slots| - k
    decreases |slots| - k
  {
    if k < |slots| {
      AllBuffers(slots, k + 1);
    }
  }

  // The cap is kept exactly when the search starts below it or finds nothing to store.
  lemma CapKeptIff(s: Search, paths: seq<string>, maxList: int)
    requires CanTake(s, paths, maxList) && !s.full && s.found <= maxList
    ensures Collect(s, paths, maxList).found <= maxList <==>
            s.found < maxList || paths == [] || s.slots[s.found] == NoBuffer
  {
    CollectStoresPrefix(s, paths, maxList);
  }

  // A full list of two grows to three.
  lemma CapExceeded()
    ensures var full := [Buffer("x"), Buffer("y"), Buffer("")];
      Collect(Search(full, 2, false), ["a", "b"], 2) == Search(full[2 := Buffer("a")], 3, true)
  {
  }

  // findPFile finds what findPFileAll stores first, in whatever list with a free slot.
  lemma FirstOfAll(s: Search, paths: seq<string>, maxList: int)
    requires CanTake(s, paths, maxList) && !s.full
    requires s.found < |s.slots| && s.slots[s.found] != NoBuffer
    ensures var t := Collect(s, paths, maxList);
      && (paths == [] <==> t.found == s.found)
      && t.slots[s.found] == if paths == [] then s.slots[s.found] else Buffer(paths[0])
  {
    CollectStoresPrefix(s, paths, maxList);
  }

  // ----------------------------------------------------------- the walk itself

  // What the entries give, one after the other and each directory in its place.
  lemma {:induction false} MatchesInOrder(path: string, a: seq<Entry>, b: seq<Entry>, q: Query)
    ensures Matches(path, a + b, q) == Matches(path, a, q) + Matches(path, b, q)
  {
    if a == [] {
      assert a + b == b;
    } else {
      assert (a + b)[1..] == a[1..] + b;
      MatchesInOrder(path, a[1..], b, q);
    }
  }

  // A file gives its full path if it is wanted, a directory what is in it if it can be
  // read and its path be built, and the two dot entries nothing.
  lemma MatchesOfOne(path: string, e: Entry, q: Query)
    ensures var full := path + "/" + e.name;
      Matches(path, [e], q) ==
      if e.name == "." || e.name == ".." then []
      else match e
        case File(name) => if q.wanted(name) then [full] else []
        case Dir(_, readable, entries) => if readable && q.alloc(full) then Matches(full, entries, q) else []
  {
    assert [e][1..] == [];
    assert Matches(path, [e], q) == MatchesOf(path, e, q) + [];
  }

  // So whatever is found is the path searched, a slash, and something.
  lemma {:induction false} FoundBelow(path: string, entries: seq<Entry>, q: Query)
    ensures forall full :: full in Matches(path, entries, q) ==> path + "/" <= full
    decreases entries
  {
    if entries != [] {
      FoundBelow(path, entries[1..], q);
      var e := entries[0];
      var deep := FullPath(path, e.name);
      if e.Dir? {
        FoundBelow(deep, e.entries, q);
        forall full | full in Matches(deep, e.entries, q) ensures path + "/" <= full {
          assert full[..|deep|] == deep;
          assert full[..|path| + 1] == deep[..|path| + 1] == path + "/";
        }
      } else {
        assert deep[..|path| + 1] == path + "/";
      }
    }
  }
}
