/** `findMarkdownFiles`: the depth-first, name-sorted listing of the
    markdown files beneath a directory. */
module Discovery {
  import opened Wrappers
  import opened Text
  import opened Paths

  /** A directory entry as `readdir` with file types reports it. */
  datatype Entry =
    | File(name: string)                          // isFile()
    | Directory(name: string, listing: Listing)   // isDirectory()
    | Special(name: string)                       // neither: links, sockets, devices

  /** What `readdir` gives for a directory: its entries, in the order the
      file system enumerates them, or the message of the error it throws. */
  datatype Listing = Readable(entries: seq<Entry>) | Unreadable(reason: string)

  const MarkdownExtension: string := ".md"

  /** The comparison `a.localeCompare(b) <= 0` is locale-dependent; all the
      model assumes of it, where it assumes anything, is a total preorder. */
  ghost predicate TotalPreorder(leq: (string, string) -> bool) {
    && (forall a, b :: leq(a, b) || leq(b, a))
    && (forall a, b, c :: leq(a, b) && leq(b, c) ==> leq(a, c))
  }

  ghost predicate Antisymmetric(leq: (string, string) -> bool) {
    forall a, b :: leq(a, b) && leq(b, a) ==> a == b
  }

  ghost predicate SortedByName(s: seq<Entry>, leq: (string, string) -> bool) {
    forall i, j :: 0 <= i < j < |s| ==> leq(s[i].name, s[j].name)
  }

  /** Entries of one directory that share a name are the same entry. */
  ghost predicate UniqueNames(s: seq<Entry>) {
    forall x, y | x in s && y in s :: x.name == y.name ==> x == y
  }

  /** Inserts `e` after every entry whose name sorts at or before its own. */
  function Insert(e: Entry, s: seq<Entry>, leq: (string, string) -> bool): (r: seq<Entry>)
    ensures multiset(r) == multiset(s) + multiset{e}
  {
    if s == [] then [e]
    else if leq(s[0].name, e.name) then
      assert s == [s[0]] + s[1..];
      [s[0]] + Insert(e, s[1..], leq)
    else [e] + s
  }

  /** `items.sort((a, b) => a.name.localeCompare(b.name))`: a stable
      insertion sort by name. */
  function SortByName(s: seq<Entry>, leq: (string, string) -> bool): (r: seq<Entry>)
    ensures multiset(r) == multiset(s)
  {
    if s == [] then []
    else
      assert s == s[..|s| - 1] + [s[|s| - 1]];
      Insert(s[|s| - 1], SortByName(s[..|s| - 1], leq), leq)
  }

  lemma {:induction false} InsertKeepsSorted(e: Entry, s: seq<Entry>, leq: (string, string) -> bool)
    requires TotalPreorder(leq) && SortedByName(s, leq)
    ensures SortedByName(Insert(e, s, leq), leq)
  {
    if s != [] {
      var r := Insert(e, s, leq);
      if leq(s[0].name, e.name) {
        InsertKeepsSorted(e, s[1..], leq);
        var tail := Insert(e, s[1..], leq);
        assert r == [s[0]] + tail;
        InsertLowerBound(e, s[1..], s[0].name, leq);
      } else {
        assert leq(e.name, s[0].name);
      }
    }
  }

  /** A name at or before `e` and every entry of `s` is at or before every
      entry of the insertion. */
  lemma InsertLowerBound(e: Entry, s: seq<Entry>, lo: string, leq: (string, string) -> bool)
    requires leq(lo, e.name)
    requires forall k :: 0 <= k < |s| ==> leq(lo, s[k].name)
    ensures forall k :: 0 <= k < |Insert(e, s, leq)| ==> leq(lo, Insert(e, s, leq)[k].name)
  {
    var r := Insert(e, s, leq);
    forall k | 0 <= k < |r|
      ensures leq(lo, r[k].name)
    {
      assert r[k] in multiset(r);
      if r[k] != e {
        assert r[k] in multiset(s);
        var m :| 0 <= m < |s| && s[m] == r[k];
      }
    }
  }

  /** Under a total preorder the sort's result is ordered by name. */
  lemma {:induction false} SortByNameSorted(s: seq<Entry>, leq: (string, string) -> bool)
    requires TotalPreorder(leq)
    ensures SortedByName(SortByName(s, leq), leq)
  {
    if s != [] {
      SortByNameSorted(s[..|s| - 1], leq);
      InsertKeepsSorted(s[|s| - 1], SortByName(s[..|s| - 1], leq), leq);
    }
  }

  /** The files found beneath `dir`, or the message of the first `readdir`
      error met on the way, which aborts the whole walk. */
  function Discover(dir: string, listing: Listing, leq: (string, string) -> bool): Result<seq<string>, string>
    decreases listing, 1
  {
    match listing
    case Unreadable(reason) => Failure(reason)
    case Readable(entries) => Walk(dir, entries, SortByName(entries, leq), leq)
  }

  /** Visits the entries of `todo` in order, recursing into directories in
      place; `entries` is the directory they were taken from. */
  function Walk(dir: string, entries: seq<Entry>, todo: seq<Entry>, leq: (string, string) -> bool)
    : Result<seq<string>, string>
    requires multiset(todo) <= multiset(entries)
    decreases Readable(entries), 0, |todo|
  {
    if todo == [] then Success([])
    else
      assert todo == [todo[0]] + todo[1..];
      assert todo[0] in entries by {
        assert todo[0] in multiset(todo);
      }
      var path := Join(dir, todo[0].name);
      var here :=
        match todo[0]
        case Directory(_, listing) => Discover(path, listing, leq)
        case File(name) => Success(if EndsWith(name, MarkdownExtension) then [path] else [])
        case Special(_) => Success([]);
      if here.Failure? then here
      else Prefixed(here.value, Walk(dir, entries, todo[1..], leq))
  }

  function Prefixed(files: seq<string>, r: Result<seq<string>, string>): Result<seq<string>, string> {
    match r
    case Success(more) => Success(files + more)
    case Failure(reason) => Failure(reason)
  }

  /** `findMarkdownFiles(dir)`. */
  method FindMarkdownFiles(dir: string, listing: Listing, leq: (string, string) -> bool)
    returns (files: Result<seq<string>, string>)
    ensures files == Discover(dir, listing, leq)
    decreases listing, 1
  {
    if listing.Unreadable? {
      return Failure(listing.reason);
    }
    var items := listing.entries;
    var sorted := SortByName(items, leq);
    var found: seq<string> := [];
    assert Discover(dir, listing, leq) == Prefixed(found, Walk(dir, items, sorted[0..], leq)) by {
      assert sorted[0..] == sorted;
      PrefixedNothing(Walk(dir, items, sorted, leq));
    }
    for i := 0 to |sorted|
      invariant multiset(sorted[i..]) <= multiset(items)
      invariant Discover(dir, listing, leq) == Prefixed(found, Walk(dir, items, sorted[i..], leq))
    {
      var stop;
      assert sorted[i..][1..] == sorted[i + 1..];
      stop, found := VisitEntry(dir, items, sorted[i..], found, leq);
      if stop.Failure? {
        return stop;
      }
    }
    assert sorted[|sorted|..] == [];
    assert found + [] == found;
    return Success(found);
  }

  /** One turn of the loop over the sorted items: recurse into a directory,
      collect a markdown file, skip anything else.  A failure of the
      recursion ends the whole walk with that failure. */
  method VisitEntry(dir: string, entries: seq<Entry>, todo: seq<Entry>, found: seq<string>,
                    leq: (string, string) -> bool)
    returns (stop: Result<seq<string>, string>, found': seq<string>)
    requires todo != [] && multiset(todo) <= multiset(entries)
    ensures multiset(todo[1..]) <= multiset(entries)
    ensures stop.Failure? ==> stop == Prefixed(found, Walk(dir, entries, todo, leq))
    ensures stop.Success? ==>
              Prefixed(found, Walk(dir, entries, todo, leq))
              == Prefixed(found', Walk(dir, entries, todo[1..], leq))
    decreases Readable(entries), 0
  {
    var item := todo[0];
    WalkStep(dir, entries, todo, leq);
    var fullPath := Join(dir, item.name);
    var rest := Walk(dir, entries, todo[1..], leq);
    stop, found' := Success([]), found;
    if item.Directory? {
      var sub := FindMarkdownFiles(fullPath, item.listing, leq);
      if sub.Failure? {
        return sub, found;
      }
      AppendAssoc(found, sub.value, rest);
      found' := found + sub.value;
    } else if item.File? && EndsWith(item.name, MarkdownExtension) {
      AppendAssoc(found, [fullPath], rest);
      found' := found + [fullPath];
    } else {
      AppendAssoc(found, [], rest);
      assert found + [] == found;
    }
  }

  /** One step of the walk: the first entry's own files, then the rest. */
  lemma WalkStep(dir: string, entries: seq<Entry>, todo: seq<Entry>, leq: (string, string) -> bool)
    requires todo != [] && multiset(todo) <= multiset(entries)
    ensures todo[0] in entries && multiset(todo[1..]) <= multiset(entries)
    ensures todo[0].Directory? ==>
              var sub := Discover(Join(dir, todo[0].name), todo[0].listing, leq);
              Walk(dir, entries, todo, leq)
              == if sub.Failure? then sub else Prefixed(sub.value, Walk(dir, entries, todo[1..], leq))
    ensures !todo[0].Directory? ==>
              Walk(dir, entries, todo, leq)
              == Prefixed(if todo[0].File? && EndsWith(todo[0].name, MarkdownExtension)
                          then [Join(dir, todo[0].name)] else [],
                          Walk(dir, entries, todo[1..], leq))
  {
    assert todo == [todo[0]] + todo[1..];
    assert todo[0] in multiset(todo);
  }

  lemma PrefixedNothing(r: Result<seq<string>, string>)
    ensures Prefixed([], r) == r
  {
    if r.Success? {
      assert [] + r.value == r.value;
    }
  }

  lemma AppendAssoc(a: seq<string>, b: seq<string>, r: Result<seq<string>, string>)
    ensures Prefixed(a, Prefixed(b, r)) == Prefixed(a + b, r)
  {
    if r.Success? {
      assert a + (b + r.value) == (a + b) + r.value;
    }
  }

  /** The markdown files beneath an entry, as a set, visiting entries in no
      particular order: the reference the ordered walk is checked against. */
  function EntryPaths(dir: string, e: Entry): set<string>
    decreases e
  {
    match e
    case File(name) => if EndsWith(name, MarkdownExtension) then {Join(dir, name)} else {}
    case Special(_) => {}
    case Directory(_, Unreadable(_)) => {}
    case Directory(name, Readable(es)) => PathsIn(Join(dir, name), es)
  }

  function PathsIn(dir: string, es: seq<Entry>): set<string>
    decreases es
  {
    if es == [] then {} else EntryPaths(dir, es[0]) + PathsIn(dir, es[1..])
  }

  lemma {:induction false} PathsInMember(dir: string, es: seq<Entry>, p: string)
    ensures p in PathsIn(dir, es) <==> exists k :: 0 <= k < |es| && p in EntryPaths(dir, es[k])
    decreases es
  {
    if es != [] {
      PathsInMember(dir, es[1..], p);
      if p in PathsIn(dir, es[1..]) {
        var k :| 0 <= k < |es[1..]| && p in EntryPaths(dir, es[1..][k]);
        assert es[k + 1] == es[1..][k];
      }
      if k :| 0 <= k < |es| && p in EntryPaths(dir, es[k]) {
        if k > 0 {
          assert es[1..][k - 1] == es[k];
        }
      }
    }
  }

  /** The reference set does not depend on the order of the entries. */
  lemma PathsInPermutation(dir: string, a: seq<Entry>, b: seq<Entry>)
    requires multiset(a) == multiset(b)
    ensures PathsIn(dir, a) == PathsIn(dir, b)
  {
    forall p | p in PathsIn(dir, a)
      ensures p in PathsIn(dir, b)
    {
      PathsInMember(dir, a, p);
      PathsInMember(dir, b, p);
      var k :| 0 <= k < |a| && p in EntryPaths(dir, a[k]);
      assert a[k] in multiset(b);
    }
    forall p | p in PathsIn(dir, b)
      ensures p in PathsIn(dir, a)
    {
      PathsInMember(dir, a, p);
      PathsInMember(dir, b, p);
      var k :| 0 <= k < |b| && p in EntryPaths(dir, b[k]);
      assert b[k] in multiset(a);
    }
  }

  /** A successful discovery lists exactly the regular files named `*.md`
      beneath the directory, at any depth. */
  lemma {:induction false} DiscoverFindsMarkdown(dir: string, listing: Listing, leq: (string, string) -> bool)
    requires Discover(dir, listing, leq).Success?
    ensures listing.Readable?
    ensures forall p :: p in Discover(dir, listing, leq).value <==> p in PathsIn(dir, listing.entries)
    decreases listing, 1
  {
    var es := listing.entries;
    var sorted := SortByName(es, leq);
    WalkFindsMarkdown(dir, es, sorted, leq);
    PathsInPermutation(dir, sorted, es);
  }

  lemma {:induction false} WalkFindsMarkdown(dir: string, entries: seq<Entry>, todo: seq<Entry>,
                                             leq: (string, string) -> bool)
    requires multiset(todo) <= multiset(entries)
    requires Walk(dir, entries, todo, leq).Success?
    ensures forall p :: p in Walk(dir, entries, todo, leq).value <==> p in PathsIn(dir, todo)
    decreases Readable(entries), 0, |todo|
  {
    if todo != [] {
      assert todo == [todo[0]] + todo[1..];
      assert todo[0] in entries by {
        assert todo[0] in multiset(todo);
      }
      WalkFindsMarkdown(dir, entries, todo[1..], leq);
      match todo[0]
      case Directory(name, listing) =>
        DiscoverFindsMarkdown(Join(dir, name), listing, leq);
      case File(_) =>
      case Special(_) =>
    }
  }

  lemma StartsWithTrans(s: string, p: string, q: string)
    requires StartsWith(s, p) && StartsWith(p, q)
    ensures StartsWith(s, q)
  {
    assert s[..|q|] == s[..|p|][..|q|];
  }

  /** Every path found beneath `dir` lies beneath `dir + "/"`. */
  lemma {:induction false} EntryPathsUnder(dir: string, e: Entry, p: string)
    requires p in EntryPaths(dir, e)
    ensures StartsWith(p, dir + "/")
    decreases e
  {
    match e
    case File(name) =>
    case Directory(name, Readable(es)) =>
      var sub := Join(dir, name);
      PathsInMember(sub, es, p);
      var k :| 0 <= k < |es| && p in EntryPaths(sub, es[k]);
      EntryPathsUnder(sub, es[k], p);
      StartsWithTrans(p, sub + "/", dir + "/");
  }

  lemma DiscoveredUnder(dir: string, listing: Listing, leq: (string, string) -> bool, p: string)
    requires Discover(dir, listing, leq).Success? && p in Discover(dir, listing, leq).value
    ensures StartsWith(p, dir + "/")
  {
    DiscoverFindsMarkdown(dir, listing, leq);
    PathsInMember(dir, listing.entries, p);
    var k :| 0 <= k < |listing.entries| && p in EntryPaths(dir, listing.entries[k]);
    EntryPathsUnder(dir, listing.entries[k], p);
  }

  /** Two name-sorted arrangements of the same entries are the same
      sequence when the order is total and names are unique. */
  lemma {:induction false} SortedIsUnique(a: seq<Entry>, b: seq<Entry>, leq: (string, string) -> bool)
    requires TotalPreorder(leq) && Antisymmetric(leq)
    requires SortedByName(a, leq) && SortedByName(b, leq)
    requires multiset(a) == multiset(b) && UniqueNames(a)
    ensures a == b
    decreases |a|
  {
    if a != [] {
      HeadsAgree(a, b, leq);
      TailsAgree(a, b);
      UniqueTail(a);
      SortedTail(a, leq);
      SortedTail(b, leq);
      SortedIsUnique(a[1..], b[1..], leq);
    }
  }

  lemma TailsAgree(a: seq<Entry>, b: seq<Entry>)
    requires a != [] && b != [] && a[0] == b[0] && multiset(a) == multiset(b)
    ensures multiset(a[1..]) == multiset(b[1..])
  {
    assert a == [a[0]] + a[1..] && b == [b[0]] + b[1..];
    assert multiset(a) == multiset([a[0]]) + multiset(a[1..]);
    assert multiset(b) == multiset([b[0]]) + multiset(b[1..]);
    assert multiset(a[1..]) == multiset(a) - multiset([a[0]]);
    assert multiset(b[1..]) == multiset(b) - multiset([b[0]]);
  }

  lemma UniqueTail(a: seq<Entry>)
    requires a != [] && UniqueNames(a)
    ensures UniqueNames(a[1..])
  {
    forall x, y | x in a[1..] && y in a[1..]
      ensures x.name == y.name ==> x == y
    {
      assert x in a && y in a;
    }
  }

  lemma SortedTail(a: seq<Entry>, leq: (string, string) -> bool)
    requires a != [] && SortedByName(a, leq)
    ensures SortedByName(a[1..], leq)
  {
    forall i, j | 0 <= i < j < |a[1..]|
      ensures leq(a[1..][i].name, a[1..][j].name)
    {
      assert a[1..][i] == a[i + 1] && a[1..][j] == a[j + 1];
    }
  }

  lemma HeadsAgree(a: seq<Entry>, b: seq<Entry>, leq: (string, string) -> bool)
    requires TotalPreorder(leq) && Antisymmetric(leq)
    requires SortedByName(a, leq) && SortedByName(b, leq)
    requires multiset(a) == multiset(b) && UniqueNames(a) && a != []
    ensures b != [] && a[0] == b[0]
  {
    assert a[0] in multiset(b);
    assert b[0] in multiset(a);
    var k :| 0 <= k < |a| && a[k] == b[0];
    var m :| 0 <= m < |b| && b[m] == a[0];
    assert leq(a[0].name, b[0].name) by {
      if k > 0 { assert leq(a[0].name, a[k].name); }
    }
    assert leq(b[0].name, a[0].name) by {
      if m > 0 { assert leq(b[0].name, b[m].name); }
    }
    assert a[0].name == b[0].name;
    assert a[0] in a && b[0] in a;
  }

  lemma {:induction false} WalkIgnoresSource(dir: string, e1: seq<Entry>, e2: seq<Entry>, todo: seq<Entry>,
                                             leq: (string, string) -> bool)
    requires multiset(todo) <= multiset(e1) && multiset(todo) <= multiset(e2)
    ensures Walk(dir, e1, todo, leq) == Walk(dir, e2, todo, leq)
    decreases |todo|
  {
    if todo != [] {
      assert todo == [todo[0]] + todo[1..];
      WalkIgnoresSource(dir, e1, e2, todo[1..], leq);
    }
  }

  /** Discovery does not depend on the order in which the file system
      enumerates a directory, as long as the name order is total and the
      names in the directory are unique. */
  lemma DiscoverIgnoresListingOrder(dir: string, es1: seq<Entry>, es2: seq<Entry>, leq: (string, string) -> bool)
    requires TotalPreorder(leq) && Antisymmetric(leq)
    requires multiset(es1) == multiset(es2) && UniqueNames(es1)
    ensures Discover(dir, Readable(es1), leq) == Discover(dir, Readable(es2), leq)
  {
    var s1, s2 := SortByName(es1, leq), SortByName(es2, leq);
    SortByNameSorted(es1, leq);
    SortByNameSorted(es2, leq);
    forall x, y | x in s1 && y in s1
      ensures x.name == y.name ==> x == y
    {
      assert x in multiset(es1) && y in multiset(es1);
    }
    SortedIsUnique(s1, s2, leq);
    WalkIgnoresSource(dir, es1, es2, s1, leq);
  }

  // ---------------------------------------------------------------------
  // Enumeration order at every depth

  /** The listing with the entries of every directory, at every depth,
      sorted by name: what the walk sees of a tree. */
  function Canonical(l: Listing, leq: (string, string) -> bool): Listing
    decreases l, 1
  {
    match l
    case Unreadable(_) => l
    case Readable(es) => Readable(SortByName(CanonEntries(es, leq), leq))
  }

  function CanonEntry(e: Entry, leq: (string, string) -> bool): (c: Entry)
    ensures c.name == e.name
    ensures c.Directory? == e.Directory? && c.File? == e.File?
    decreases e, 0
  {
    match e
    case Directory(name, listing) => Directory(name, Canonical(listing, leq))
    case _ => e
  }

  function CanonEntries(es: seq<Entry>, leq: (string, string) -> bool): (cs: seq<Entry>)
    ensures |cs| == |es|
    ensures forall i :: 0 <= i < |es| ==> cs[i] == CanonEntry(es[i], leq)
    decreases Readable(es), 0
  {
    seq(|es|, i requires 0 <= i < |es| => CanonEntry(es[i], leq))
  }

  /** Names are distinct within every directory of the tree. */
  ghost predicate DistinctNames(l: Listing)
    decreases l
  {
    match l
    case Unreadable(_) => true
    case Readable(es) =>
      && (forall i, j :: 0 <= i < j < |es| ==> es[i].name != es[j].name)
      && (forall i :: 0 <= i < |es| && es[i].Directory? ==> DistinctNames(es[i].listing))
  }

  /** Two trees that differ only in the order in which `readdir` enumerates
      each directory: at every depth, the entries of one are a rearrangement
      `r` of the entries of the other, matched entry for entry. */
  ghost predicate SameUpToOrder(l1: Listing, l2: Listing)
    decreases l1, 1
  {
    match l1
    case Unreadable(reason) => l2 == Unreadable(reason)
    case Readable(es1) =>
      l2.Readable? &&
      exists r: seq<Entry> :: multiset(r) == multiset(l2.entries) && Matched(es1, r)
  }

  /** `r` matches `es` entry for entry: the same entry, or a directory of the
      same name whose tree differs only in enumeration order. */
  ghost predicate Matched(es: seq<Entry>, r: seq<Entry>)
    decreases Readable(es), 0
  {
    && |r| == |es|
    && forall i :: 0 <= i < |es| ==>
         || es[i] == r[i]
         || (&& es[i].Directory? && r[i].Directory? && es[i].name == r[i].name
             && SameUpToOrder(es[i].listing, r[i].listing))
  }

  /** Sorting commutes with canonicalising the subtrees, which keeps names. */
  lemma {:induction false} InsertCanon(e: Entry, s: seq<Entry>, leq: (string, string) -> bool)
    ensures Insert(CanonEntry(e, leq), CanonEntries(s, leq), leq) == CanonEntries(Insert(e, s, leq), leq)
  {
    if s != [] {
      var ce, cs := CanonEntry(e, leq), CanonEntries(s, leq);
      CanonTail(s, leq);
      if leq(s[0].name, e.name) {
        InsertCanon(e, s[1..], leq);
        calc {
          Insert(ce, cs, leq);
          [cs[0]] + Insert(ce, cs[1..], leq);
          [CanonEntry(s[0], leq)] + CanonEntries(Insert(e, s[1..], leq), leq);
          { CanonCons(s[0], Insert(e, s[1..], leq), leq); }
          CanonEntries([s[0]] + Insert(e, s[1..], leq), leq);
        }
      } else {
        CanonCons(e, s, leq);
      }
    }
  }

  lemma CanonTail(s: seq<Entry>, leq: (string, string) -> bool)
    requires s != []
    ensures CanonEntries(s, leq)[0] == CanonEntry(s[0], leq)
    ensures CanonEntries(s, leq)[1..] == CanonEntries(s[1..], leq)
  {
  }

  lemma CanonCons(x: Entry, s: seq<Entry>, leq: (string, string) -> bool)
    ensures CanonEntries([x] + s, leq) == [CanonEntry(x, leq)] + CanonEntries(s, leq)
  {
  }

  lemma {:induction false} SortCanon(s: seq<Entry>, leq: (string, string) -> bool)
    ensures SortByName(CanonEntries(s, leq), leq) == CanonEntries(SortByName(s, leq), leq)
  {
    if s != [] {
      var n := |s| - 1;
      var cs := CanonEntries(s, leq);
      assert cs[..|cs| - 1] == CanonEntries(s[..n], leq);
      SortCanon(s[..n], leq);
      InsertCanon(s[n], SortByName(s[..n], leq), leq);
    }
  }

  /** The walk depends on the tree only through its canonical form. */
  lemma {:induction false} SameCanonicalSameDiscovery(dir: string, l1: Listing, l2: Listing,
                                                       leq: (string, string) -> bool)
    requires Canonical(l1, leq) == Canonical(l2, leq)
    ensures Discover(dir, l1, leq) == Discover(dir, l2, leq)
    decreases l1, 1
  {
    if l1.Readable? {
      var s1, s2 := SortByName(l1.entries, leq), SortByName(l2.entries, leq);
      SortCanon(l1.entries, leq);
      SortCanon(l2.entries, leq);
      WalkSameCanonical(dir, l1.entries, s1, l2.entries, s2, leq);
    }
  }

  lemma {:induction false} WalkSameCanonical(dir: string, e1: seq<Entry>, t1: seq<Entry>,
                                             e2: seq<Entry>, t2: seq<Entry>, leq: (string, string) -> bool)
    requires multiset(t1) <= multiset(e1) && multiset(t2) <= multiset(e2)
    requires CanonEntries(t1, leq) == CanonEntries(t2, leq)
    ensures Walk(dir, e1, t1, leq) == Walk(dir, e2, t2, leq)
    decreases Readable(e1), 0, |t1|
  {
    if t1 != [] {
      WalkStep(dir, e1, t1, leq);
      WalkStep(dir, e2, t2, leq);
      CanonTail(t1, leq);
      CanonTail(t2, leq);
      WalkSameCanonical(dir, e1, t1[1..], e2, t2[1..], leq);
      if t1[0].Directory? {
        SameCanonicalSameDiscovery(Join(dir, t1[0].name), t1[0].listing, t2[0].listing, leq);
      } else {
        assert t1[0] == t2[0];
      }
    }
  }

  /** Trees that differ only in enumeration order have the same canonical
      form, when the name order is total and antisymmetric and names are
      distinct within each directory. */
  lemma {:induction false} SameUpToOrderCanonical(l1: Listing, l2: Listing, leq: (string, string) -> bool)
    requires TotalPreorder(leq) && Antisymmetric(leq)
    requires DistinctNames(l1) && SameUpToOrder(l1, l2)
    ensures Canonical(l1, leq) == Canonical(l2, leq)
    decreases l1, 1
  {
    if l1.Readable? {
      var es1, es2 := l1.entries, l2.entries;
      var r: seq<Entry> :| multiset(r) == multiset(es2) && Matched(es1, r);
      MatchedCanonical(es1, r, leq);
      SortedRearrangement(es1, r, es2, leq);
      calc {
        SortByName(CanonEntries(es1, leq), leq);
        SortByName(CanonEntries(r, leq), leq);
        { SortCanon(r, leq); }
        CanonEntries(SortByName(r, leq), leq);
        CanonEntries(SortByName(es2, leq), leq);
        { SortCanon(es2, leq); }
        SortByName(CanonEntries(es2, leq), leq);
      }
    }
  }

  lemma {:induction false} MatchedCanonical(es: seq<Entry>, r: seq<Entry>, leq: (string, string) -> bool)
    requires TotalPreorder(leq) && Antisymmetric(leq)
    requires DistinctNames(Readable(es)) && Matched(es, r)
    ensures CanonEntries(es, leq) == CanonEntries(r, leq)
    ensures forall i :: 0 <= i < |es| ==> r[i].name == es[i].name
    decreases Readable(es), 0
  {
    forall i | 0 <= i < |es|
      ensures CanonEntry(es[i], leq) == CanonEntry(r[i], leq)
    {
      if es[i] != r[i] {
        SameUpToOrderCanonical(es[i].listing, r[i].listing, leq);
      }
    }
  }

  /** A rearrangement with the same names, position by position, as a
      directory with distinct names sorts to the same sequence as any other
      arrangement of its entries. */
  lemma SortedRearrangement(es: seq<Entry>, r: seq<Entry>, other: seq<Entry>, leq: (string, string) -> bool)
    requires TotalPreorder(leq) && Antisymmetric(leq)
    requires forall i, j :: 0 <= i < j < |es| ==> es[i].name != es[j].name
    requires |r| == |es| && (forall i :: 0 <= i < |es| ==> r[i].name == es[i].name)
    requires multiset(r) == multiset(other)
    ensures SortByName(r, leq) == SortByName(other, leq)
  {
    var sr, so := SortByName(r, leq), SortByName(other, leq);
    SortByNameSorted(r, leq);
    SortByNameSorted(other, leq);
    forall x, y | x in sr && y in sr
      ensures x.name == y.name ==> x == y
    {
      assert x in multiset(r) && y in multiset(r);
      var a :| 0 <= a < |r| && r[a] == x;
      var b :| 0 <= b < |r| && r[b] == y;
    }
    SortedIsUnique(sr, so, leq);
  }

  /** `findMarkdownFiles` does not depend on the order in which `readdir`
      enumerates any directory of the tree, at any depth. */
  lemma DiscoverIgnoresEnumerationOrder(dir: string, l1: Listing, l2: Listing, leq: (string, string) -> bool)
    requires TotalPreorder(leq) && Antisymmetric(leq)
    requires DistinctNames(l1) && SameUpToOrder(l1, l2)
    ensures Discover(dir, l1, leq) == Discover(dir, l2, leq)
  {
    SameUpToOrderCanonical(l1, l2, leq);
    SameCanonicalSameDiscovery(dir, l1, l2, leq);
  }

  /** A reordering inside a subdirectory is such a difference. */
  lemma NestedReorder(a: string, b: string)
    ensures SameUpToOrder(Readable([Directory("d", Readable([File(a), File(b)]))]),
                          Readable([Directory("d", Readable([File(b), File(a)]))]))
  {
    var inner1, inner2 := [File(a), File(b)], [File(b), File(a)];
    assert multiset(inner1) == multiset(inner2);
    assert Matched(inner1, inner1);
    assert Matched([Directory("d", Readable(inner1))], [Directory("d", Readable(inner2))]);
  }

  /** ... and does not change what is discovered. */
  lemma NestedReorderIgnored(dir: string, a: string, b: string, leq: (string, string) -> bool)
    requires TotalPreorder(leq) && Antisymmetric(leq) && a != b
    ensures Discover(dir, Readable([Directory("d", Readable([File(a), File(b)]))]), leq)
            == Discover(dir, Readable([Directory("d", Readable([File(b), File(a)]))]), leq)
  {
    var l1 := Readable([Directory("d", Readable([File(a), File(b)]))]);
    NestedReorder(a, b);
    assert DistinctNames(l1.entries[0].listing);
    DiscoverIgnoresEnumerationOrder(dir, l1, Readable([Directory("d", Readable([File(b), File(a)]))]), leq);
  }
}
