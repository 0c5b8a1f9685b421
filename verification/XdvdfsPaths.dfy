/** Path resolution: the image as a tree of folders. */
module XdvdfsPaths {
  import opened Words
  import opened Xdvdfs
  import opened XdvdfsTheorems

  predicate IsSeparator(c: u8) {
    c == 0x5C || c == 0x2F
  }

  predicate Plain(name: seq<u8>) {
    forall i :: 0 <= i < |name| ==> !IsSeparator(name[i])
  }

  predicate AllSeparators(s: seq<u8>) {
    forall i :: 0 <= i < |s| ==> IsSeparator(s[i])
  }

  /** The length of the run of ordinary characters a path begins with. */
  function RunLength(path: seq<u8>): (n: nat)
    ensures n <= |path| && Plain(path[..n]) && (n < |path| ==> IsSeparator(path[n]))
  {
    if path == [] || IsSeparator(path[0]) then 0 else 1 + RunLength(path[1..])
  }

  /** The maximal runs of ordinary characters, in order. */
  function Parts(path: seq<u8>): (parts: seq<Name>)
    decreases |path|
  {
    if path == [] then []
    else if IsSeparator(path[0]) then Parts(path[1..])
    else [path[..RunLength(path)]] + Parts(path[RunLength(path)..])
  }

  lemma {:induction false} RunThenSeparator(word: seq<u8>, rest: seq<u8>)
    requires Plain(word) && (rest == [] || IsSeparator(rest[0]))
    ensures RunLength(word + rest) == |word|
    decreases |word|
  {
    if word == [] {
      assert word + rest == rest;
    } else {
      assert (word + rest)[1..] == word[1..] + rest;
      RunThenSeparator(word[1..], rest);
    }
  }

  lemma PartsOfWord(word: seq<u8>, rest: seq<u8>)
    requires Plain(word) && word != [] && (rest == [] || IsSeparator(rest[0]))
    ensures Parts(word + rest) == [word] + Parts(rest)
  {
    RunThenSeparator(word, rest);
    assert (word + rest)[..|word|] == word && (word + rest)[|word|..] == rest;
  }

  method SplitPath(path: seq<u8>) returns (parts: seq<Name>)
    ensures parts == Parts(path)
  {
    hide Parts;
    parts := [];
    var current: seq<u8> := [];
    assert current + path[0..] == path;
    for i := 0 to |path|
      invariant Plain(current)
      invariant parts + Parts(current + path[i..]) == Parts(path)
    {
      var c := path[i];
      if IsSeparator(c) {
        SeparatorDropped(path[i..]);
        if current != [] {
          PartsOfWord(current, path[i..]);
          assert parts + ([current] + Parts(path[i..])) == parts + [current] + Parts(path[i..]);
          parts := parts + [current];
          current := [];
        }
        assert [] + path[i..] == path[i..] && path[i..][1..] == path[i + 1..] && [] + path[i + 1..] == path[i + 1..];
      } else {
        assert current + path[i..] == current + [c] + path[i + 1..];
        current := current + [c];
      }
    }
    assert current + path[|path|..] == current + [];
    NoParts();
    if current == [] {
    } else {
      PartsOfWord(current, []);
      parts := parts + [current];
    }
  }

  lemma SeparatorDropped(path: seq<u8>)
    requires path != [] && IsSeparator(path[0])
    ensures Parts(path) == Parts(path[1..])
  {
  }

  lemma NoParts()
    ensures Parts([]) == []
  {
  }

  // ---------------------------------------------------------------- only the parts matter

  /** A path written with these parts: separators before each part, and after the last. */
  function Written(parts: seq<Name>, before: seq<seq<u8>>, after: seq<u8>): seq<u8>
    requires |before| == |parts|
  {
    if parts == [] then after else before[0] + parts[0] + Written(parts[1..], before[1..], after)
  }

  lemma {:induction false} SeparatorsVanish(s: seq<u8>, rest: seq<u8>)
    requires AllSeparators(s)
    ensures Parts(s + rest) == Parts(rest)
    decreases |s|
  {
    if s == [] {
      assert s + rest == rest;
    } else {
      assert (s + rest)[1..] == s[1..] + rest;
      SeparatorsVanish(s[1..], rest);
    }
  }

  /** However a list of parts is written, with whatever separators, splitting the path gives the list back. */
  lemma {:induction false} WrittenPathSplits(parts: seq<Name>, before: seq<seq<u8>>, after: seq<u8>)
    requires |before| == |parts| && AllSeparators(after)
    requires forall i :: 0 <= i < |parts| ==> parts[i] != [] && Plain(parts[i]) && AllSeparators(before[i])
    requires forall i :: 1 <= i < |parts| ==> before[i] != []
    ensures Parts(Written(parts, before, after)) == parts
    decreases |parts|
  {
    hide Plain;
    hide Parts;
    if parts == [] {
      SeparatorsVanish(after, []);
      assert after + [] == after;
      NoParts();
    } else {
      var rest := Written(parts[1..], before[1..], after);
      WrittenPathSplits(parts[1..], before[1..], after);
      SeparatorsVanish(before[0], parts[0] + rest);
      assert before[0] + parts[0] + rest == before[0] + (parts[0] + rest);
      if |parts| > 1 {
        assert rest == before[1] + parts[1] + Written(parts[2..], before[2..], after) by {
          assert parts[1..][1..] == parts[2..] && before[1..][1..] == before[2..];
        }
        assert rest[0] == before[1][0];
      }
      PartsOfWord(parts[0], rest);
    }
  }

  /** The two characters that separate parts. */
  predicate Slash(c: u8) {
    c == '/' as int || c == '\\' as int
  }

  /** A path of parts without slashes, one slash of either kind before each, splits into its parts. */
  lemma SlashedPathSplits(parts: seq<Name>, slashes: seq<u8>)
    requires |slashes| == |parts| && forall i :: 0 <= i < |parts| ==> parts[i] != [] && Slash(slashes[i])
    requires forall i, j :: 0 <= i < |parts| && 0 <= j < |parts[i]| ==> !Slash(parts[i][j])
    ensures Parts(Written(parts, seq(|parts|, i requires 0 <= i < |parts| => [slashes[i]]), [])) == parts
  {
    forall i | 0 <= i < |parts| ensures Plain(parts[i]) {
      forall j | 0 <= j < |parts[i]| ensures !IsSeparator(parts[i][j]) {
        assert !Slash(parts[i][j]);
      }
    }
    WrittenPathSplits(parts, seq(|parts|, i requires 0 <= i < |parts| => [slashes[i]]), []);
  }

  // ---------------------------------------------------------------- resolution

  /** The directory tables of an image, by sector and size. */
  type Disc = (u32, u32) -> Table

  function Resolve(disc: Disc, sector: u32, size: u32, parts: seq<Name>): Lookup
    decreases |parts|
  {
    if parts == [] then NotFound
    else
      match Search(disc(sector, size), parts[0])
      case NotFound => NotFound
      case Hangs => Hangs
      case Found(entry) =>
        if |parts| == 1 then Found(entry)
        else if !entry.isDirectory then NotFound
        else Resolve(disc, entry.startSector, entry.fileSize, parts[1..])
  }

  method ResolvePath(disc: Disc, rootSector: u32, rootSize: u32, path: seq<u8>) returns (r: Lookup)
    ensures r == Resolve(disc, rootSector, rootSize, Parts(path))
  {
    hide Search;
    hide Parts;
    var parts := SplitPath(path);
    if parts == [] {
      return NotFound;
    }
    var tableSector, tableSize := rootSector, rootSize;
    r := NotFound;
    for i := 0 to |parts|
      invariant i < |parts| ==>
                  Resolve(disc, tableSector, tableSize, parts[i..]) == Resolve(disc, rootSector, rootSize, parts)
      invariant i == |parts| ==> r == Resolve(disc, rootSector, rootSize, parts)
    {
      r := SearchDirectory(disc(tableSector, tableSize), parts[i]);
      if !r.Found? {
        return;
      }
      if i + 1 < |parts| {
        if !r.entry.isDirectory {
          return NotFound;
        }
        tableSector, tableSize := r.entry.startSector, r.entry.fileSize;
        assert parts[i..][1..] == parts[i + 1..];
      }
    }
  }

  // ---------------------------------------------------------------- folders

  /** A directory as its user sees it. */
  datatype Folder = Folder(items: seq<Item>)
  datatype Item = Item(name: Name, entry: DirectoryEntry, contents: Folder)

  function FindItem(items: seq<Item>, name: Name): Option<Item> {
    if items == [] then None
    else if SameName(name, items[0].name) then Some(items[0])
    else FindItem(items[1..], name)
  }

  lemma {:induction false} FoundIsItem(items: seq<Item>, name: Name)
    requires FindItem(items, name).Some?
    ensures FindItem(items, name).value in items
    decreases |items|
  {
    if SameName(name, items[0].name) {
    } else {
      FoundIsItem(items[1..], name);
    }
  }

  /** Following a path's parts through folders. */
  function Descend(folder: Folder, parts: seq<Name>): Lookup
    decreases |parts|
  {
    if parts == [] then NotFound
    else
      match FindItem(folder.items, parts[0])
      case None => NotFound
      case Some(item) =>
        if |parts| == 1 then Found(item.entry)
        else if !item.entry.isDirectory then NotFound
        else Descend(item.contents, parts[1..])
  }

  ghost predicate SameItems(rs: seq<Raw>, items: seq<Item>) {
    |rs| == |items| && forall i :: 0 <= i < |rs| ==> rs[i].name == items[i].name && rs[i].entry == items[i].entry
  }

  ghost predicate TableHolds(t: Table, rs: seq<Raw>, tree: Tree, items: seq<Item>) {
    WellLaid(t, rs, tree) && CaseUnique(rs) && SameItems(rs, items)
  }

  /** The image stores the folder: a well-laid table with unique names, and so on for every directory in it. */
  ghost predicate Stores(disc: Disc, sector: u32, size: u32, folder: Folder)
    decreases folder
  {
    && (exists rs, tree :: TableHolds(disc(sector, size), rs, tree, folder.items))
    && forall i :: 0 <= i < |folder.items| && folder.items[i].entry.isDirectory ==>
         Stores(disc, folder.items[i].entry.startSector, folder.items[i].entry.fileSize, folder.items[i].contents)
  }

  lemma {:induction false} FirstMatchIsItem(rs: seq<Raw>, items: seq<Item>, name: Name)
    requires SameItems(rs, items)
    ensures FirstMatch(rs, name) == match FindItem(items, name)
                                    case Some(item) => Found(item.entry)
                                    case None => NotFound
    decreases |rs|
  {
    hide SameName;
    if rs == [] {
    } else {
      FirstMatchIsItem(rs[1..], items[1..], name);
    }
  }

  lemma SearchIsFind(disc: Disc, sector: u32, size: u32, folder: Folder, name: Name)
    requires Stores(disc, sector, size, folder)
    ensures Search(disc(sector, size), name)
         == match FindItem(folder.items, name) case Some(item) => Found(item.entry) case None => NotFound
  {
    hide Search;
    hide WellLaid;
    hide CaseUnique;
    hide SameItems;
    hide FindItem;
    hide FirstMatch;
    var rs, tree :| TableHolds(disc(sector, size), rs, tree, folder.items);
    PathsAgree(disc(sector, size), rs, tree, name);
    FirstMatchIsItem(rs, folder.items, name);
  }

  /** Resolving a path in an image that stores a folder is following its parts through the folder. */
  lemma {:induction false} ResolveIsDescend(disc: Disc, sector: u32, size: u32, folder: Folder, parts: seq<Name>)
    requires Stores(disc, sector, size, folder)
    ensures Resolve(disc, sector, size, parts) == Descend(folder, parts)
    decreases |parts|
  {
    hide Search;
    hide FindItem;
    if parts == [] {
    } else {
      SearchIsFind(disc, sector, size, folder, parts[0]);
      var found := FindItem(folder.items, parts[0]);
      if found.Some? && |parts| > 1 && found.value.entry.isDirectory {
        FoundIsItem(folder.items, parts[0]);
        var i :| 0 <= i < |folder.items| && folder.items[i] == found.value;
        ResolveIsDescend(disc, found.value.entry.startSector, found.value.entry.fileSize, found.value.contents,
                         parts[1..]);
      }
    }
  }
}
