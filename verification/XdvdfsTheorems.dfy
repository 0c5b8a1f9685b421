/** What lookup promises of tables laid out the way discs lay them out. */
module XdvdfsTheorems {
  import opened Words
  import opened Xdvdfs

  // ---------------------------------------------------------------- comparing names

  /** The two cases of one ASCII letter. */
  predicate CasesOf(a: u8, b: u8) {
    (0x41 <= a <= 0x5A && b == a + 0x20) || (0x41 <= b <= 0x5A && a == b + 0x20)
  }

  /** Names are the same exactly if they agree byte for byte up to the case of ASCII letters. */
  lemma SameNameExactly(a: Name, b: Name)
    ensures SameName(a, b) <==> |a| == |b| && forall i :: 0 <= i < |a| ==> a[i] == b[i] || CasesOf(a[i], b[i])
  {
    if SameName(a, b) {
      forall i | 0 <= i < |a| ensures a[i] == b[i] || CasesOf(a[i], b[i]) {
        assert ToLower(a)[i] == ToLower(b)[i];
      }
    }
    if |a| == |b| && forall i :: 0 <= i < |a| ==> a[i] == b[i] || CasesOf(a[i], b[i]) {
      assert ToLower(a) == ToLower(b);
    }
  }

  /** `a` comes before `b` from their `k`-th byte on: it has none there or a smaller one, after equal bytes. */
  predicate BeforeAt(a: Name, b: Name, k: nat) {
    k <= |a| && k < |b| && a[..k] == b[..k] && (k == |a| || a[k] < b[k])
  }

  /** The order that steers the tree loop is that of the bytes as stored, a prefix before what it begins. */
  lemma {:induction false} LessExactly(a: Name, b: Name)
    ensures Less(a, b) <==> exists k: nat :: BeforeAt(a, b, k)
    decreases |a|
  {
    if a == [] || b == [] {
      if b != [] {
        assert BeforeAt(a, b, 0);
      }
    } else {
      LessExactly(a[1..], b[1..]);
      if a[0] < b[0] {
        assert BeforeAt(a, b, 0);
      }
      if k: nat :| a[0] == b[0] && BeforeAt(a[1..], b[1..], k) {
        assert a[..k + 1] == [a[0]] + a[1..][..k] && b[..k + 1] == [b[0]] + b[1..][..k];
        assert BeforeAt(a, b, k + 1);
      }
      if k: nat :| BeforeAt(a, b, k) {
        if k > 0 {
          assert a[0] == a[..k][0] == b[..k][0] == b[0];
          assert a[1..][..k - 1] == a[..k][1..] == b[..k][1..] == b[1..][..k - 1];
          assert BeforeAt(a[1..], b[1..], k - 1);
        }
      }
    }
  }

  // ---------------------------------------------------------------- the tree in the table

  /** The search tree a table threads from an offset. */
  datatype Tree = Leaf | Node(left: Tree, at: nat, raw: Raw, right: Tree)

  /** The tree is finite, so the child offsets it follows are acyclic. */
  ghost predicate Threads(t: Table, at: nat, tree: Tree)
    decreases tree, 0
  {
    match RawAt(t, at)
    case None => tree == Leaf
    case Some(raw) =>
      && tree.Node? && tree.at == at && tree.raw == raw
      && ThreadsChild(t, raw.left, tree.left) && ThreadsChild(t, raw.right, tree.right)
  }

  ghost predicate ThreadsChild(t: Table, link: u16, child: Tree)
    decreases child, 1
  {
    if link == 0 || link == 0xFFFF then child == Leaf else Threads(t, 4 * link, child)
  }

  function Size(tree: Tree): nat {
    match tree
    case Leaf => 0
    case Node(left, _, _, right) => 1 + Size(left) + Size(right)
  }

  function Nodes(tree: Tree): seq<Raw> {
    match tree
    case Leaf => []
    case Node(left, _, raw, right) => Nodes(left) + [raw] + Nodes(right)
  }

  /** Looking a name up in the tree itself. */
  function TreeSearch(tree: Tree, name: Name): Option<DirectoryEntry> {
    match tree
    case Leaf => None
    case Node(left, _, raw, right) =>
      if SameName(name, raw.name) then Some(raw.entry)
      else if Less(name, raw.name) then TreeSearch(left, name)
      else TreeSearch(right, name)
  }

  lemma {:induction false} OneTree(t: Table, at: nat, tree: Tree, tree': Tree)
    requires Threads(t, at, tree) && Threads(t, at, tree')
    ensures tree == tree'
    decreases tree
  {
    hide RawAt;
    match RawAt(t, at)
    case None =>
    case Some(raw) =>
      if !NoChild(raw.left) {
        OneTree(t, 4 * raw.left, tree.left, tree'.left);
      }
      if !NoChild(raw.right) {
        OneTree(t, 4 * raw.right, tree.right, tree'.right);
      }
  }

  /** Every offset already visited carries a larger tree, so the loop cannot be at it again. */
  ghost predicate SeenAreLarger(t: Table, unseen: set<nat>, seen: map<nat, Tree>, size: nat) {
    && (forall o: nat :: o < |t| && o !in unseen ==> o in seen)
    && (forall o :: o in seen ==> Threads(t, o, seen[o]) && Size(seen[o]) > size)
  }

  /** On a table that threads a tree, the tree loop is the search in that tree; in particular it ends. */
  lemma {:induction false} WalkIsTreeSearch(t: Table, name: Name, at: nat, tree: Tree, unseen: set<nat>,
                                            seen: map<nat, Tree>)
    requires Threads(t, at, tree) && SeenAreLarger(t, unseen, seen, Size(tree))
    ensures TreeWalk(t, name, at, unseen) == match TreeSearch(tree, name)
                                             case Some(e) => Reached(e)
                                             case None => Stopped
    decreases tree
  {
    hide Less;
    hide SameName;
    if RawAt(t, at).None? {
    } else {
      var raw := tree.raw;
      if at !in unseen {
        OneTree(t, at, tree, seen[at]);
        assert false;
      }
      var link: nat := LinkToward(raw, name);
      if !SameName(name, raw.name) && !NoChild(link) {
        var child := if Less(name, raw.name) then tree.left else tree.right;
        GrowSeen(t, unseen, seen, tree, Size(child));
        WalkIsTreeSearch(t, name, 4 * link, child, unseen - {at}, seen[at := tree]);
      }
    }
  }

  lemma GrowSeen(t: Table, unseen: set<nat>, seen: map<nat, Tree>, tree: Tree, size: nat)
    requires tree.Node? && Threads(t, tree.at, tree) && size < Size(tree) && SeenAreLarger(t, unseen, seen, Size(tree))
    ensures SeenAreLarger(t, unseen - {tree.at}, seen[tree.at := tree], size)
  {
    hide Threads;
    hide Size;
  }

  lemma RootWalk(t: Table, name: Name, tree: Tree)
    requires Threads(t, 0, tree)
    ensures TreeWalk(t, name, 0, Below(|t|)) == match TreeSearch(tree, name)
                                                case Some(e) => Reached(e)
                                                case None => Stopped
  {
    WalkIsTreeSearch(t, name, 0, tree, Below(|t|), map[]);
  }

  // ---------------------------------------------------------------- ordered trees

  ghost predicate Ordered(tree: Tree) {
    match tree
    case Leaf => true
    case Node(left, _, raw, right) =>
      && Ordered(left) && Ordered(right)
      && (forall r :: r in Nodes(left) ==> Less(r.name, raw.name))
      && (forall r :: r in Nodes(right) ==> Less(raw.name, r.name))
  }

  ghost predicate CaseUnique(rs: seq<Raw>) {
    forall i, j :: 0 <= i < j < |rs| ==> !SameName(rs[i].name, rs[j].name)
  }

  lemma UniqueParts(a: seq<Raw>, raw: Raw, b: seq<Raw>)
    requires CaseUnique(a + [raw] + b)
    ensures CaseUnique(a) && CaseUnique(b)
    ensures forall r :: r in a || r in b ==> !SameName(r.name, raw.name)
  {
    var all := a + [raw] + b;
    hide SameName;
    assert forall i :: 0 <= i < |a| ==> all[i] == a[i];
    assert forall i :: 0 <= i < |b| ==> all[|a| + 1 + i] == b[i];
    assert all[|a|] == raw;
    forall r | r in a || r in b ensures !SameName(r.name, raw.name) {
      SameNameSymmetric(r.name, raw.name);
      if r in a {
        var i :| 0 <= i < |a| && a[i] == r;
        assert !SameName(all[i].name, all[|a|].name);
      } else {
        var i :| 0 <= i < |b| && b[i] == r;
        assert !SameName(all[|a|].name, all[|a| + 1 + i].name);
      }
    }
  }

  lemma SameNameSymmetric(a: Name, b: Name)
    ensures SameName(a, b) == SameName(b, a)
  {
  }

  lemma {:induction false} OrderedFinds(tree: Tree, raw: Raw)
    requires Ordered(tree) && CaseUnique(Nodes(tree)) && raw in Nodes(tree)
    ensures TreeSearch(tree, raw.name) == Some(raw.entry)
    decreases tree
  {
    hide SameName;
    hide Less;
    UniqueParts(Nodes(tree.left), tree.raw, Nodes(tree.right));
    if raw in Nodes(tree.left) {
      OrderedFinds(tree.left, raw);
    } else if raw in Nodes(tree.right) {
      LessIsAsymmetric(tree.raw.name, raw.name);
      OrderedFinds(tree.right, raw);
    } else {
      assert raw == tree.raw;
      SameNameReflexive(raw.name);
    }
  }

  lemma SameNameReflexive(a: Name)
    ensures SameName(a, a)
  {
  }

  /**
   * In a table that threads a finite tree in byte order, names unique up to case, the exact stored name is reached
   * by the tree loop alone: the fallback is never entered.
   */
  lemma ExactNameReached(t: Table, tree: Tree, raw: Raw)
    requires Threads(t, 0, tree) && Ordered(tree) && CaseUnique(Nodes(tree)) && raw in Nodes(tree)
    ensures TreeWalk(t, raw.name, 0, Below(|t|)) == Reached(raw.entry)
    ensures Search(t, raw.name) == Found(raw.entry)
  {
    hide TreeWalk;
    RootWalk(t, raw.name, tree);
    OrderedFinds(tree, raw);
  }

  // ---------------------------------------------------------------- entries laid end to end

  /** The table is exactly these entries, one after the other from an offset on. */
  ghost predicate LaidOut(t: Table, rs: seq<Raw>, at: nat)
    decreases |rs|
  {
    if rs == [] then RawAt(t, at) == None
    else RawAt(t, at) == Some(rs[0]) && LaidOut(t, rs[1..], After(at, rs[0]))
  }

  function FirstMatch(rs: seq<Raw>, name: Name): Lookup {
    if rs == [] then NotFound
    else if SameName(name, rs[0].name) then Found(rs[0].entry)
    else FirstMatch(rs[1..], name)
  }

  lemma {:induction false} ScanIsFirstMatch(t: Table, rs: seq<Raw>, at: nat, name: Name)
    requires LaidOut(t, rs, at)
    ensures LinearScan(t, name, at) == FirstMatch(rs, name)
    decreases |rs|
  {
    hide SameName;
    hide RawAt;
    if rs == [] {
    } else {
      ScanIsFirstMatch(t, rs[1..], After(at, rs[0]), name);
    }
  }

  predicate Matches(raw: Raw, name: Name) {
    SameName(name, raw.name)
  }

  lemma {:induction false} FirstMatchFinds(rs: seq<Raw>, name: Name)
    ensures FirstMatch(rs, name) != Hangs
    ensures FirstMatch(rs, name).Found? <==> exists i :: 0 <= i < |rs| && Matches(rs[i], name)
    decreases |rs|
  {
    hide SameName;
    if rs == [] {
    } else {
      FirstMatchFinds(rs[1..], name);
      if i :| 0 <= i < |rs| && Matches(rs[i], name) {
        if i > 0 {
          assert rs[1..][i - 1] == rs[i];
        }
      }
      if i :| 0 <= i < |rs[1..]| && Matches(rs[1..][i], name) {
        assert rs[i + 1] == rs[1..][i];
      }
      if SameName(name, rs[0].name) {
        assert Matches(rs[0], name);
      }
    }
  }

  lemma {:induction false} OnlyMatch(rs: seq<Raw>, name: Name, k: nat)
    requires CaseUnique(rs) && k < |rs| && Matches(rs[k], name)
    ensures FirstMatch(rs, name) == Found(rs[k].entry)
    decreases |rs|
  {
    if k == 0 {
    } else {
      assert !SameName(rs[0].name, rs[k].name);
      assert CaseUnique(rs[1..]);
      OnlyMatch(rs[1..], name, k - 1);
    }
  }

  lemma {:induction false} TreeSearchMatches(tree: Tree, name: Name) returns (raw: Raw)
    requires TreeSearch(tree, name).Some?
    ensures raw in Nodes(tree) && Matches(raw, name) && TreeSearch(tree, name) == Some(raw.entry)
    decreases tree
  {
    hide SameName;
    hide Less;
    if SameName(name, tree.raw.name) {
      raw := tree.raw;
    } else if Less(name, tree.raw.name) {
      raw := TreeSearchMatches(tree.left, name);
    } else {
      raw := TreeSearchMatches(tree.right, name);
    }
  }

  /** Contiguous entries, and child offsets that point at them and lead nowhere twice. */
  ghost predicate WellLaid(t: Table, rs: seq<Raw>, tree: Tree) {
    LaidOut(t, rs, 0) && Threads(t, 0, tree) && forall r :: r in Nodes(tree) ==> r in rs
  }

  /** In such a table, whatever its order, lookup succeeds exactly if some entry matches up to case. */
  lemma LookupIffMatch(t: Table, rs: seq<Raw>, tree: Tree, name: Name)
    requires WellLaid(t, rs, tree)
    ensures Search(t, name) != Hangs
    ensures Search(t, name).Found? <==> exists i :: 0 <= i < |rs| && Matches(rs[i], name)
  {
    hide TreeWalk;
    hide LinearScan;
    hide Threads;
    hide LaidOut;
    hide Matches;
    RootWalk(t, name, tree);
    ScanIsFirstMatch(t, rs, 0, name);
    FirstMatchFinds(rs, name);
    if TreeSearch(tree, name).Some? {
      var raw := TreeSearchMatches(tree, name);
      var i :| 0 <= i < |rs| && rs[i] == raw;
      assert Matches(rs[i], name);
    }
  }

  /** With names unique up to case, the tree loop and the linear scan never disagree, and lookup is the linear scan. */
  lemma PathsAgree(t: Table, rs: seq<Raw>, tree: Tree, name: Name)
    requires WellLaid(t, rs, tree) && CaseUnique(rs)
    ensures TreeWalk(t, name, 0, Below(|t|)) in
              {Stopped, match LinearScan(t, name, 0) case Found(e) => Reached(e) case _ => Stopped}
    ensures Search(t, name) == LinearScan(t, name, 0) == FirstMatch(rs, name)
  {
    hide TreeWalk;
    hide LinearScan;
    hide Threads;
    hide LaidOut;
    hide Matches;
    RootWalk(t, name, tree);
    ScanIsFirstMatch(t, rs, 0, name);
    if TreeSearch(tree, name).Some? {
      var raw := TreeSearchMatches(tree, name);
      var i :| 0 <= i < |rs| && rs[i] == raw;
      OnlyMatch(rs, name, i);
    }
  }

  // ---------------------------------------------------------------- writing a table

  /** An entry as a disc stores it. */
  function EntryBytes(raw: Raw): (bs: seq<u8>)
    requires |raw.name| < PADDING_LENGTH
    ensures |bs| == HEADER_BYTES + |raw.name|
  {
    [raw.left % 0x100, raw.left / 0x100, raw.right % 0x100, raw.right / 0x100]
    + LittleEndian(raw.entry.startSector) + LittleEndian(raw.entry.fileSize)
    + [if raw.entry.isDirectory then DIRECTORY_ATTRIBUTE else 0, |raw.name|] + raw.name
  }

  /** Fills the last dword of an entry. */
  function Padding(n: nat): (bs: seq<u8>)
    ensures |bs| < 4 && (n + |bs|) % 4 == 0
  {
    seq((4 - n % 4) % 4, _ => 0xFF)
  }

  ghost predicate Writable(rs: seq<Raw>) {
    forall i :: 0 <= i < |rs| ==> |rs[i].name| < PADDING_LENGTH
  }

  function TableOf(rs: seq<Raw>): seq<u8>
    requires Writable(rs)
  {
    if rs == [] then []
    else EntryBytes(rs[0]) + Padding(|EntryBytes(rs[0])|) + TableOf(rs[1..])
  }

  lemma LittleU32Reads(t: Table, at: nat, w: u32)
    requires at + 4 <= |t| && t[at..at + 4] == LittleEndian(w)
    ensures LittleU32(t, at) == w
  {
    assert t[at] == t[at..at + 4][0] && t[at + 1] == t[at..at + 4][1];
    assert t[at + 2] == t[at..at + 4][2] && t[at + 3] == t[at..at + 4][3];
    assert w / 0x100 / 0x100 == w / 0x1_0000 && w / 0x1_0000 / 0x100 == w / 0x100_0000;
  }

  /** The bytes of an entry read back as the entry. */
  lemma EntryRoundTrip(t: Table, at: nat, raw: Raw)
    requires |raw.name| < PADDING_LENGTH && at + HEADER_BYTES + |raw.name| <= |t|
    requires t[at..at + HEADER_BYTES + |raw.name|] == EntryBytes(raw)
    ensures RawAt(t, at) == Some(raw)
  {
    var bs := EntryBytes(raw);
    assert forall i {:trigger bs[i]} :: 0 <= i < |bs| ==> t[at + i] == t[at..at + |bs|][i];
    assert t[at + 4..at + 8] == bs[4..8] == LittleEndian(raw.entry.startSector);
    assert t[at + 8..at + 12] == bs[8..12] == LittleEndian(raw.entry.fileSize);
    LittleU32Reads(t, at + 4, raw.entry.startSector);
    LittleU32Reads(t, at + 8, raw.entry.fileSize);
    assert t[at + HEADER_BYTES..at + |bs|] == bs[HEADER_BYTES..] == raw.name;
  }

  /** Of an entry's attributes only bit 4, the directory bit, matters; all others may be anything. */
  lemma OtherAttributes(t: Table, at: nat, attributes: u8)
    requires RawAt(t, at).Some?
    ensures at + 12 < |t|
    ensures var raw := RawAt(t, at).value;
      RawAt(t[at + 12 := attributes], at)
        == Some(raw.(entry := raw.entry.(isDirectory := attributes % 32 >= 16)))
  {
    var t1: Table := t[at + 12 := attributes];
    assert t1[at + 14..at + 14 + t1[at + 13]] == t[at + 14..at + 14 + t[at + 13]];
  }

  /** A name length of 255 is padding, and an entry that does not fit the table is none. */
  lemma NoEntry(t: Table, at: nat)
    requires at + 14 <= |t| ==> t[at + 13] == 0xFF || at + 14 + t[at + 13] > |t|
    ensures RawAt(t, at) == None
  {
  }

  /** A table written entry after entry is laid out as the scan expects. */
  lemma {:induction false} TableRoundTrip(before: seq<u8>, rs: seq<Raw>)
    requires Writable(rs) && |before| % 4 == 0 && |before| + |TableOf(rs)| <= 0xFFFF_FFFC
    ensures LaidOut(before + TableOf(rs), rs, |before|)
    decreases |rs|
  {
    hide RawAt;
    hide EntryBytes;
    var t: Table := before + TableOf(rs);
    if rs == [] {
      NothingPastEnd(t, |before|);
    } else {
      var bs := EntryBytes(rs[0]);
      var pad := Padding(|bs|);
      Pieces(before, bs, pad, TableOf(rs[1..]));
      EntryRoundTrip(t, |before|, rs[0]);
      TableRoundTrip(before + bs + pad, rs[1..]);
      NextDword(|before|, rs[0], |pad|);
    }
  }

  lemma Pieces(a: seq<u8>, b: seq<u8>, c: seq<u8>, d: seq<u8>)
    ensures a + (b + c + d) == a + b + c + d
    ensures (a + (b + c + d))[|a|..|a| + |b|] == b
  {
  }

  lemma NothingPastEnd(t: Table, at: nat)
    requires at >= |t|
    ensures RawAt(t, at) == None
  {
  }

  lemma NextDword(at: nat, raw: Raw, pad: nat)
    requires at % 4 == 0 && pad < 4 && (HEADER_BYTES + |raw.name| + pad) % 4 == 0
    ensures After(at, raw) == at + HEADER_BYTES + |raw.name| + pad
  {
  }

  // ---------------------------------------------------------------- tables that make the tree loop run for ever

  /** The offset after one turn of the tree loop, if the loop goes on. */
  function NextAt(t: Table, name: Name, at: nat): Option<nat> {
    match RawAt(t, at)
    case None => None
    case Some(raw) =>
      if SameName(name, raw.name) || NoChild(LinkToward(raw, name)) then None else Some(4 * LinkToward(raw, name))
  }

  predicate RunsFor(t: Table, name: Name, at: nat, turns: nat)
    decreases turns
  {
    turns == 0 || (NextAt(t, name, at).Some? && RunsFor(t, name, NextAt(t, name, at).value, turns - 1))
  }

  /** Offsets the loop moves among. */
  ghost predicate Closed(t: Table, name: Name, s: set<nat>) {
    forall o :: o in s ==> NextAt(t, name, o).Some? && NextAt(t, name, o).value in s
  }

  lemma {:induction false} CyclingIsClosed(t: Table, name: Name, at: nat, unseen: set<nat>, path: set<nat>)
      returns (s: set<nat>)
    requires TreeWalk(t, name, at, unseen) == Cycling
    requires forall o: nat :: o < |t| && o !in unseen ==> o in path
    requires forall o :: o in path ==> NextAt(t, name, o).Some? && NextAt(t, name, o).value in path + {at}
    ensures at in s && Closed(t, name, s)
    decreases unseen
  {
    hide SameName;
    hide LinkToward;
    if at !in unseen {
      s := path;
    } else {
      s := CyclingIsClosed(t, name, NextAt(t, name, at).value, unseen - {at}, path + {at});
      var s' := ClosedWith(t, name, s, at);
      s := s';
    }
  }

  lemma ClosedWith(t: Table, name: Name, s: set<nat>, at: nat) returns (s': set<nat>)
    requires Closed(t, name, s) && NextAt(t, name, at).Some? && NextAt(t, name, at).value in s
    ensures at in s' && Closed(t, name, s')
  {
    hide NextAt;
    s' := s + {at};
  }

  lemma {:induction false} ClosedRuns(t: Table, name: Name, s: set<nat>, at: nat, turns: nat)
    requires Closed(t, name, s) && at in s
    ensures RunsFor(t, name, at, turns)
    decreases turns
  {
    hide NextAt;
    if turns == 0 {
    } else {
      ClosedRuns(t, name, s, NextAt(t, name, at).value, turns - 1);
    }
  }

  /** A loop that ends does so before it could have been at every fresh offset once. */
  lemma {:induction false} EndingStops(t: Table, name: Name, at: nat, unseen: set<nat>) returns (turns: nat)
    requires TreeWalk(t, name, at, unseen) != Cycling
    ensures turns <= |unseen| + 1 && !RunsFor(t, name, at, turns)
    decreases unseen
  {
    hide SameName;
    hide LinkToward;
    if NextAt(t, name, at).Some? {
      var rest := EndingStops(t, name, NextAt(t, name, at).value, unseen - {at});
      turns := rest + 1;
    } else {
      turns := 1;
    }
  }

  /** The result `Hangs` means what it says: the tree loop has no last turn. */
  lemma HangsExactlyForEver(t: Table, name: Name)
    ensures Search(t, name) == Hangs <==> forall turns: nat :: RunsFor(t, name, 0, turns)
  {
    hide RunsFor;
    ScanNeverHangs(t, name, 0);
    if TreeWalk(t, name, 0, Below(|t|)) == Cycling {
      var s := CyclingIsClosed(t, name, 0, Below(|t|), {});
      forall turns: nat ensures RunsFor(t, name, 0, turns) {
        ClosedRuns(t, name, s, 0, turns);
      }
    } else {
      var turns := EndingStops(t, name, 0, Below(|t|));
    }
  }

  lemma {:induction false} ScanNeverHangs(t: Table, name: Name, at: nat)
    ensures LinearScan(t, name, at) != Hangs
    decreases |t| - at
  {
    if RawAt(t, at).None? {
    } else {
      ScanNeverHangs(t, name, After(at, RawAt(t, at).value));
    }
  }

  // ---------------------------------------------------------------- when lookup hangs

  /** Where the tree loop stands after so many turns, if it gets that far. */
  function OffsetAfter(t: Table, name: Name, turns: nat): Option<nat> {
    if turns == 0 then Some(0)
    else
      match OffsetAfter(t, name, turns - 1)
      case None => None
      case Some(at) => NextAt(t, name, at)
  }

  /** Following the links toward `name` comes to some offset twice within as many turns as the table has bytes. */
  predicate Revisits(t: Table, name: Name) {
    exists i, j :: 0 <= i < j <= |t| && SameOffset(t, name, i, j)
  }

  predicate SameOffset(t: Table, name: Name, i: nat, j: nat) {
    OffsetAfter(t, name, i).Some? && OffsetAfter(t, name, i) == OffsetAfter(t, name, j)
  }

  lemma {:induction false} RunsFromThere(t: Table, name: Name, n: nat, k: nat)
    requires OffsetAfter(t, name, n).Some?
    ensures RunsFor(t, name, OffsetAfter(t, name, n).value, k) <==> OffsetAfter(t, name, n + k).Some?
    decreases k
  {
    hide NextAt;
    if k == 0 {
    } else if OffsetAfter(t, name, n + 1).Some? {
      RunsFromThere(t, name, n + 1, k - 1);
    } else {
      StaysEnded(t, name, n + 1, n + k);
    }
  }

  lemma {:induction false} StaysEnded(t: Table, name: Name, n: nat, n': nat)
    requires OffsetAfter(t, name, n).None? && n <= n'
    ensures OffsetAfter(t, name, n').None?
    decreases n'
  {
    hide NextAt;
    if n == n' {
    } else {
      StaysEnded(t, name, n, n' - 1);
    }
  }

  lemma {:induction false} SameOffsetsOn(t: Table, name: Name, i: nat, j: nat, k: nat)
    requires OffsetAfter(t, name, i) == OffsetAfter(t, name, j)
    ensures OffsetAfter(t, name, i + k) == OffsetAfter(t, name, j + k)
    decreases k
  {
    hide NextAt;
    if k == 0 {
    } else {
      SameOffsetsOn(t, name, i, j, k - 1);
    }
  }

  lemma {:induction false} RevisitRunsOn(t: Table, name: Name, i: nat, j: nat, n: nat)
    requires i < j && SameOffset(t, name, i, j)
    ensures OffsetAfter(t, name, n).Some?
    decreases n
  {
    hide NextAt;
    if n <= j {
      if OffsetAfter(t, name, n).None? {
        StaysEnded(t, name, n, j);
      }
    } else {
      RevisitRunsOn(t, name, i, j, n - (j - i));
      SameOffsetsOn(t, name, i, j, n - j);
    }
  }

  /** Every offset the loop has been at is in its trail so far. */
  ghost predicate OnTrail(t: Table, name: Name, unseen: set<nat>, n: nat) {
    forall o: nat :: o < |t| && o !in unseen ==> exists k :: 0 <= k < n && IsOffset(t, name, k, o)
  }

  predicate IsOffset(t: Table, name: Name, k: nat, o: nat) {
    OffsetAfter(t, name, k) == Some(o)
  }

  /** A cycling loop reads an entry, and goes on cycling from the next offset if this one is fresh. */
  lemma CyclingGoesOn(t: Table, name: Name, at: nat, unseen: set<nat>)
    requires TreeWalk(t, name, at, unseen) == Cycling
    ensures at < |t| && (at in unseen ==> NextAt(t, name, at).Some?
                                          && TreeWalk(t, name, NextAt(t, name, at).value, unseen - {at}) == Cycling)
  {
    hide SameName;
    hide LinkToward;
  }

  lemma NextOffset(t: Table, name: Name, n: nat, at: nat)
    requires IsOffset(t, name, n, at) && NextAt(t, name, at).Some?
    ensures IsOffset(t, name, n + 1, NextAt(t, name, at).value)
  {
    hide NextAt;
  }

  lemma {:induction false} CyclingRevisits(t: Table, name: Name, at: nat, unseen: set<nat>, n: nat)
    requires TreeWalk(t, name, at, unseen) == Cycling
    requires IsOffset(t, name, n, at) && OnTrail(t, name, unseen, n) && |unseen| + n == |t|
    ensures Revisits(t, name)
    decreases unseen
  {
    hide TreeWalk;
    hide NextAt;
    CyclingGoesOn(t, name, at, unseen);
    if at !in unseen {
      var k :| 0 <= k < n && IsOffset(t, name, k, at);
      assert SameOffset(t, name, k, n);
    } else {
      hide OffsetAfter;
      NextOffset(t, name, n, at);
      TrailGrows(t, name, at, unseen, n);
      CyclingRevisits(t, name, NextAt(t, name, at).value, unseen - {at}, n + 1);
    }
  }

  lemma TrailGrows(t: Table, name: Name, at: nat, unseen: set<nat>, n: nat)
    requires IsOffset(t, name, n, at) && OnTrail(t, name, unseen, n)
    ensures OnTrail(t, name, unseen - {at}, n + 1)
  {
    hide IsOffset;
    forall o: nat | o < |t| && o !in unseen - {at} ensures exists k :: 0 <= k < n + 1 && IsOffset(t, name, k, o) {
      if o == at {
        assert IsOffset(t, name, n, o);
      } else {
        var k :| 0 <= k < n && IsOffset(t, name, k, o);
        assert 0 <= k < n + 1 && IsOffset(t, name, k, o);
      }
    }
  }

  lemma {:induction false} BelowSize(n: nat)
    ensures |Below(n)| == n
    decreases n
  {
    if n == 0 {
    } else {
      BelowSize(n - 1);
    }
  }

  lemma {:induction false} FewerTurns(t: Table, name: Name, at: nat, k: nat, k': nat)
    requires k <= k' && RunsFor(t, name, at, k')
    ensures RunsFor(t, name, at, k)
    decreases k
  {
    hide NextAt;
    if k == 0 {
    } else {
      FewerTurns(t, name, NextAt(t, name, at).value, k - 1, k' - 1);
    }
  }

  lemma RevisitRunsForEver(t: Table, name: Name, turns: nat)
    requires Revisits(t, name)
    ensures RunsFor(t, name, 0, turns)
  {
    hide NextAt;
    hide RunsFor;
    hide SameOffset;
    var i, j :| 0 <= i < j <= |t| && SameOffset(t, name, i, j);
    RevisitRunsOn(t, name, i, j, turns);
    RunsFromThere(t, name, 0, turns);
  }

  /**
   * Lookup hangs if and only if the links toward the name lead to some offset twice, which shows within as many
   * turns as the table has bytes; equivalently, if and only if the loop outlasts one turn for each byte.
   */
  lemma HangsExactlyOnRevisit(t: Table, name: Name)
    ensures Search(t, name) == Hangs <==> Revisits(t, name)
    ensures Search(t, name) == Hangs <==> RunsFor(t, name, 0, |t| + 1)
  {
    hide RunsFor;
    hide Revisits;
    hide TreeWalk;
    hide LinearScan;
    HangsExactlyForEver(t, name);
    ScanNeverHangs(t, name, 0);
    BelowSize(|t|);
    if Search(t, name) == Hangs {
      assert OnTrail(t, name, Below(|t|), 0) && IsOffset(t, name, 0, 0);
      CyclingRevisits(t, name, 0, Below(|t|), 0);
    } else {
      var turns := EndingStops(t, name, 0, Below(|t|));
      if RunsFor(t, name, 0, |t| + 1) {
        FewerTurns(t, name, 0, turns, |t| + 1);
      }
    }
    if Revisits(t, name) {
      forall turns: nat ensures RunsFor(t, name, 0, turns) {
        RevisitRunsForEver(t, name, turns);
      }
    }
  }

  // ---------------------------------------------------------------- a table that hangs

  const NO_FILE := DirectoryEntry(0, 0, false)

  /** Two entries, "m" and "n"; both have the second as their right child. */
  const LOOPING_ENTRIES: seq<Raw> := [Raw(0, 4, NO_FILE, [0x6D]), Raw(0, 4, NO_FILE, [0x6E])]

  /** Looking up "z" in the table of those two entries never returns. */
  lemma LoopingTableHangs()
    ensures Writable(LOOPING_ENTRIES) && |TableOf(LOOPING_ENTRIES)| == 32
    ensures Search(TableOf(LOOPING_ENTRIES), [0x7A]) == Hangs
  {
    hide EntryBytes;
    hide RawAt;
    hide Search;
    var rs := LOOPING_ENTRIES;
    assert Writable(rs);
    assert TableOf(rs[2..]) == [] && |TableOf(rs[1..])| == 16 && |TableOf(rs)| == 32;
    TableRoundTrip([], rs);
    var t, z := TableOf(rs), [0x7A];
    assert [] + t == t;
    assert RawAt(t, 0) == Some(rs[0]) && RawAt(t, 16) == Some(rs[1]) by {
      assert After(0, rs[0]) == 16 && rs[1..][0] == rs[1];
      assert LaidOut(t, rs, 0) && LaidOut(t, rs[1..], 16);
    }
    assert ToLower(z)[0] == 0x7A && ToLower([0x6D])[0] == 0x6D && ToLower([0x6E])[0] == 0x6E;
    assert NextAt(t, z, 0) == Some(16) && NextAt(t, z, 16) == Some(16);
    assert OffsetAfter(t, z, 0) == Some(0) && OffsetAfter(t, z, 1) == Some(16) && OffsetAfter(t, z, 2) == Some(16);
    assert SameOffset(t, z, 1, 2);
    HangsExactlyOnRevisit(t, z);
  }
}
