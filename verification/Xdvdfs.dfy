/**
 * Directory lookup in an XDVDFS image: a search tree threaded by offsets through a flat table of bytes, a linear scan
 * behind it, and path resolution over both.
 */
module Xdvdfs {
  import opened Words

  type Name = seq<u8>

  /** A table no longer than this keeps the scan's rounding of offsets below 2^32. */
  type Table = t: seq<u8> | |t| <= 0xFFFF_FFFC

  const HEADER_BYTES := 14
  const PADDING_LENGTH := 0xFF
  const DIRECTORY_ATTRIBUTE := 0x10

  datatype DirectoryEntry = DirectoryEntry(startSector: u32, fileSize: u32, isDirectory: bool)

  /** One entry of a table as it lies there. Child links count dwords. */
  datatype Raw = Raw(left: u16, right: u16, entry: DirectoryEntry, name: Name)

  /** `Hangs`: the source's tree loop has come back to an offset and repeats itself for ever. */
  datatype Lookup = Found(entry: DirectoryEntry) | NotFound | Hangs

  // ---------------------------------------------------------------- names

  function Lower(c: u8): u8 {
    if 0x41 <= c <= 0x5A then c + 0x20 else c
  }

  function ToLower(name: Name): (l: Name)
    ensures |l| == |name|
  {
    seq(|name|, i requires 0 <= i < |name| => Lower(name[i]))
  }

  predicate SameName(a: Name, b: Name) {
    ToLower(a) == ToLower(b)
  }

  /** Byte order, the order the trees on a disc are built by. */
  predicate Less(a: Name, b: Name)
    decreases |a|
  {
    b != [] && (a == [] || a[0] < b[0] || (a[0] == b[0] && Less(a[1..], b[1..])))
  }

  lemma {:induction false} LessIsAsymmetric(a: Name, b: Name)
    requires Less(a, b)
    ensures !Less(b, a)
    decreases |a|
  {
    if a != [] && a[0] == b[0] {
      LessIsAsymmetric(a[1..], b[1..]);
    }
  }

  // ---------------------------------------------------------------- the table

  function LittleU16(t: Table, at: nat): u16
    requires at + 2 <= |t|
  {
    var low: int, high: int := t[at], t[at + 1];
    low + 0x100 * high
  }

  function LittleU32(t: Table, at: nat): u32
    requires at + 4 <= |t|
  {
    LittleU16(t, at) + 0x1_0000 * LittleU16(t, at + 2)
  }

  /** The entry at an offset, unless the table ends first or padding starts there. */
  function RawAt(t: Table, at: nat): Option<Raw> {
    if at + HEADER_BYTES > |t| then None
    else if t[at + 13] == PADDING_LENGTH || at + HEADER_BYTES + t[at + 13] > |t| then None
    else
      Some(Raw(LittleU16(t, at), LittleU16(t, at + 2),
               DirectoryEntry(LittleU32(t, at + 4), LittleU32(t, at + 8), t[at + 12] / DIRECTORY_ATTRIBUTE % 2 == 1),
               t[at + HEADER_BYTES..at + HEADER_BYTES + t[at + 13]]))
  }

  predicate NoChild(link: u16) {
    link == 0xFFFF || link == 0
  }

  function LinkToward(raw: Raw, name: Name): u16 {
    if Less(name, raw.name) then raw.left else raw.right
  }

  /** Where the tree loop ends up. */
  datatype Walked = Reached(entry: DirectoryEntry) | Stopped | Cycling

  function Below(n: nat): (s: set<nat>)
    ensures forall o: nat :: o in s <==> o < n
  {
    if n == 0 then {} else Below(n - 1) + {n - 1}
  }

  /** The tree loop from an offset; `unseen` holds the offsets it has not been at. */
  function TreeWalk(t: Table, name: Name, at: nat, unseen: set<nat>): Walked
    decreases unseen
  {
    match RawAt(t, at)
    case None => Stopped
    case Some(raw) =>
      if SameName(name, raw.name) then Reached(raw.entry)
      else if at !in unseen then Cycling
      else if NoChild(LinkToward(raw, name)) then Stopped
      else TreeWalk(t, name, 4 * LinkToward(raw, name), unseen - {at})
  }

  /** Entries follow each other on whole dwords. */
  function After(at: nat, raw: Raw): nat {
    (at + HEADER_BYTES + |raw.name| + 3) / 4 * 4
  }

  function LinearScan(t: Table, name: Name, at: nat): Lookup
    decreases |t| - at
  {
    match RawAt(t, at)
    case None => NotFound
    case Some(raw) => if SameName(name, raw.name) then Found(raw.entry) else LinearScan(t, name, After(at, raw))
  }

  function Search(t: Table, name: Name): Lookup {
    match TreeWalk(t, name, 0, Below(|t|))
    case Reached(entry) => Found(entry)
    case Cycling => Hangs
    case Stopped => LinearScan(t, name, 0)
  }

  /** Reads one entry field by field. */
  method ReadEntry(t: Table, at: nat) returns (raw: Option<Raw>)
    ensures raw == RawAt(t, at)
  {
    if at + HEADER_BYTES > |t| {
      return None;
    }
    var leftOffset, rightOffset := LittleU16(t, at), LittleU16(t, at + 2);
    var startSector, fileSize := LittleU32(t, at + 4), LittleU32(t, at + 8);
    var attributes, nameLength := t[at + 12], t[at + 13];
    if nameLength == PADDING_LENGTH {
      return None;
    }
    if at + HEADER_BYTES + nameLength > |t| {
      return None;
    }
    var isDirectory := attributes / DIRECTORY_ATTRIBUTE % 2 == 1;
    raw := Some(Raw(leftOffset, rightOffset, DirectoryEntry(startSector, fileSize, isDirectory),
                    t[at + HEADER_BYTES..at + HEADER_BYTES + nameLength]));
  }

  method SearchDirectory(t: Table, name: Name) returns (r: Lookup)
    ensures r == Search(t, name)
  {
    hide RawAt;
    hide Less;
    hide ToLower;
    var targetLower := ToLower(name);
    var entryOffset: nat, unseen := 0, Below(|t|);
    while true
      invariant TreeWalk(t, name, entryOffset, unseen) == TreeWalk(t, name, 0, Below(|t|))
      decreases unseen
    {
      var raw := ReadEntry(t, entryOffset);
      if raw.None? {
        break;
      }
      if targetLower == ToLower(raw.value.name) {
        return Found(raw.value.entry);
      }
      if entryOffset !in unseen {
        return Hangs;
      }
      unseen := unseen - {entryOffset};
      var link := if Less(name, raw.value.name) then raw.value.left else raw.value.right;
      if link == 0xFFFF || link == 0 {
        break;
      }
      entryOffset := 4 * link;
    }
    r := ScanTable(t, name);
  }

  method ScanTable(t: Table, name: Name) returns (r: Lookup)
    ensures r == LinearScan(t, name, 0)
  {
    hide RawAt;
    hide ToLower;
    var linearOffset: nat := 0;
    while linearOffset + HEADER_BYTES <= |t|
      invariant LinearScan(t, name, linearOffset) == LinearScan(t, name, 0)
    {
      var raw := ReadEntry(t, linearOffset);
      if raw.None? {
        return NotFound;
      }
      if ToLower(name) == ToLower(raw.value.name) {
        return Found(raw.value.entry);
      }
      linearOffset := linearOffset + HEADER_BYTES + |raw.value.name|;
      linearOffset := (linearOffset + 3) / 4 * 4;
    }
    NoEntryAtEnd(t, linearOffset);
    r := NotFound;
  }

  lemma NoEntryAtEnd(t: Table, at: nat)
    requires at + HEADER_BYTES > |t|
    ensures RawAt(t, at) == None
  {
  }
}
