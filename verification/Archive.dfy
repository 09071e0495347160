/** The WAZ boundary: which ZIP files are accepted, over the raw bytes and whatever the ZIP
    library claims about its entries. Record layouts are those of PKWARE's APPNOTE.TXT, sections
    4.3.7 (local header), 4.3.12 (central header) and 4.3.16 (end record). */
module Archive {
  import opened Sets
  import opened Wrappers
  import opened Bytes
  import opened Paths
  import opened Tiling

  const LIMIT := 67108864
  const MAX_ENTRIES := 4096
  const MAX_NODES := 10000

  datatype Compression = Stored | Deflated | Other

  /** One entry as the ZIP library reports it. `stream` is what decompressing it yields. */
  datatype Entry = Entry(name: seq<Byte>, isDir: bool, encrypted: bool, compression: Compression, regular: bool,
                         size: nat, compressedSize: nat, crc: nat,
                         headerStart: nat, dataStart: nat, centralStart: nat, stream: Option<seq<Byte>>)

  datatype Listing = Listing(entries: seq<Entry>, offset: nat)

  /** An accepted archive, with the byte spans that were checked. */
  datatype Opened = Opened(files: map<seq<Byte>, seq<Byte>>, locals: map<nat, nat>, centrals: map<nat, nat>,
                           directory: nat)

  datatype Error =
    | NotZip | BadEnd | Disagrees | BadEntry | BadCentral | BadLocal | BadContent | Unindexed | Conflict | NoManifest

  // ------------------------------------------------------------ paths

  const MANIFEST := Ascii("manifest.json")
  const SIGNATURE := Ascii("signature.json")
  const BACKEND := Ascii("backend.wasm")
  const README := Ascii("README.md")
  const CHANGES := Ascii("CHANGELOG.md")
  const PUBLIC := Ascii("public")
  const MAX_DEPTH := 33

  predicate BadPart(p: seq<Byte>) {
    p == [] || p == [46] || p == [46, 46]
  }

  /** `plain` tells whether the bytes are UTF-8 text without control or whitespace characters. */
  predicate WazPath(path: seq<Byte>, plain: seq<Byte> -> bool) {
    && path != [] && |path| <= 1024
    && (forall i :: 0 <= i < |path| ==> path[i] !in {92, 58, 63, 35, 37})
    && plain(path)
    && |Split(path, SLASH)| <= MAX_DEPTH
    && (forall i :: 0 <= i < |Split(path, SLASH)| ==> !BadPart(Split(path, SLASH)[i]))
    && (path in {MANIFEST, SIGNATURE, BACKEND, README, CHANGES} || PUBLIC + [SLASH] <= path)
  }

  function SizeLimit(name: seq<Byte>): nat {
    if name == MANIFEST then 1048576
    else if name == SIGNATURE then 65536
    else if name == BACKEND then LIMIT
    else 16777216
  }

  // ------------------------------------------------------------ records

  predicate IsZip(bytes: seq<Byte>) {
    |bytes| <= LIMIT && |bytes| >= 22 && [0x50, 0x4B, 3, 4] <= bytes
  }

  function DirectoryStart(bytes: seq<Byte>): nat
    requires |bytes| >= 22
  {
    U32(bytes, |bytes| - 22 + 16)
  }

  predicate EndOk(bytes: seq<Byte>)
    requires |bytes| >= 22
  {
    var end := |bytes| - 22;
    && bytes[end..end + 4] == [0x50, 0x4B, 5, 6]
    && U16(bytes, end + 4) == 0 && U16(bytes, end + 6) == 0 && U16(bytes, end + 20) == 0
    && U16(bytes, end + 8) == U16(bytes, end + 10)
    && 0 < U16(bytes, end + 10) <= MAX_ENTRIES
    && DirectoryStart(bytes) + U32(bytes, end + 12) == end
  }

  function CentralEnd(bytes: seq<Byte>, e: Entry): nat
    requires e.centralStart + 46 <= |bytes|
  {
    var c := e.centralStart;
    c + 46 + U16(bytes, c + 28) + U16(bytes, c + 30) + U16(bytes, c + 32)
  }

  predicate CentralOk(bytes: seq<Byte>, e: Entry) {
    && |bytes| >= 22 && e.centralStart + 46 <= |bytes| && e.headerStart + 30 <= |bytes|
    && bytes[e.centralStart..e.centralStart + 4] == [0x50, 0x4B, 1, 2]
    && DirectoryStart(bytes) <= e.centralStart && CentralEnd(bytes, e) <= |bytes| - 22
    && U16(bytes, e.centralStart + 8) == U16(bytes, e.headerStart + 6)
  }

  function Stop(e: Entry): nat {
    e.dataStart + e.compressedSize
  }

  /** The general-purpose flags other than UTF-8 names (bit 11) and Deflate hints (bits 1 and 2). */
  predicate PlainFlags(flags: nat) {
    flags % 2 == 0 && (flags / 8) % 256 == 0 && flags / 4096 == 0
  }

  predicate LocalOk(bytes: seq<Byte>, e: Entry) {
    && |bytes| >= 22 && e.headerStart + 30 <= |bytes|
    && var h := e.headerStart; var n := U16(bytes, h + 26);
       && bytes[h..h + 4] == [0x50, 0x4B, 3, 4]
       && PlainFlags(U16(bytes, h + 6))
       && h + 30 + n <= |bytes| && bytes[h + 30..h + 30 + n] == e.name
       && h + 30 + n + U16(bytes, h + 28) == e.dataStart
       && U16(bytes, h + 8) == (if e.compression == Stored then 0 else 8)
       && U32(bytes, h + 14) == e.crc && U32(bytes, h + 18) == e.compressedSize && U32(bytes, h + 22) == e.size
       && Stop(e) <= DirectoryStart(bytes)
  }

  predicate HeaderOk(e: Entry, plain: seq<Byte> -> bool) {
    WazPath(e.name, plain) && !e.isDir && !e.encrypted && e.compression != Other && e.regular
  }

  /** What is read of an entry: at most one byte more than it declares. */
  function Content(e: Entry): Option<seq<Byte>> {
    if e.stream.None? then None
    else if |e.stream.value| == e.size then e.stream
    else None
  }

  function TotalSize(entries: seq<Entry>): nat {
    if entries == [] then 0 else TotalSize(entries[..|entries| - 1]) + entries[|entries| - 1].size
  }

  // ------------------------------------------------------------ directories

  function Directories(names: set<seq<Byte>>): set<seq<Byte>> {
    set n, a | n in names && a in Ancestors(n, SLASH) :: a
  }

  /** No file stands where another file needs a directory. */
  ghost predicate NoConflict(names: set<seq<Byte>>) {
    Directories(names) !! names
  }

  // ------------------------------------------------------------ acceptance

  /** One entry of the listing agrees with the bytes and with what was opened. */
  ghost predicate Placed(bytes: seq<Byte>, e: Entry, plain: seq<Byte> -> bool, o: Opened) {
    && HeaderOk(e, plain) && CentralOk(bytes, e) && LocalOk(bytes, e)
    && e.name in o.files && Some(o.files[e.name]) == Content(e) && |o.files[e.name]| == e.size <= SizeLimit(e.name)
    && e.headerStart in o.locals && o.locals[e.headerStart] == Stop(e)
    && e.centralStart in o.centrals && o.centrals[e.centralStart] == CentralEnd(bytes, e)
  }

  /** The entry can be read after the earlier ones: sound headers and content, nothing used before, and
      enough of the decompression budget left. */
  predicate Fits(bytes: seq<Byte>, earlier: seq<Entry>, e: Entry, plain: seq<Byte> -> bool) {
    && HeaderOk(e, plain) && CentralOk(bytes, e) && LocalOk(bytes, e)
    && e.size <= SizeLimit(e.name) && TotalSize(earlier) + e.size <= LIMIT && Content(e).Some?
    && e.name !in Names(earlier) && e.headerStart !in LocalStarts(earlier) && e.centralStart !in CentralStarts(earlier)
  }

  predicate FitsAt(bytes: seq<Byte>, entries: seq<Entry>, plain: seq<Byte> -> bool, i: nat)
    requires i < |entries|
  {
    Fits(bytes, entries[..i], entries[i], plain)
  }

  ghost predicate FitUpTo(bytes: seq<Byte>, entries: seq<Entry>, plain: seq<Byte> -> bool, n: nat)
    requires n <= |entries|
  {
    forall i: nat {:trigger FitsAt(bytes, entries, plain, i)} :: i < n ==> FitsAt(bytes, entries, plain, i)
  }

  ghost predicate AllFit(bytes: seq<Byte>, entries: seq<Entry>, plain: seq<Byte> -> bool) {
    FitUpTo(bytes, entries, plain, |entries|)
  }

  lemma FitStep(bytes: seq<Byte>, entries: seq<Entry>, plain: seq<Byte> -> bool, i: nat)
    requires i < |entries|
    ensures FitUpTo(bytes, entries, plain, i + 1) <==>
      FitUpTo(bytes, entries, plain, i) && Fits(bytes, entries[..i], entries[i], plain)
    ensures AllFit(bytes, entries, plain) ==> FitUpTo(bytes, entries, plain, i + 1)
  {
    assert FitsAt(bytes, entries, plain, i) <==> Fits(bytes, entries[..i], entries[i], plain);
  }

  lemma TakeStep(entries: seq<Entry>, i: nat)
    requires i < |entries|
    ensures entries[..i + 1] == entries[..i] + [entries[i]]
    ensures TotalSize(entries[..i + 1]) == TotalSize(entries[..i]) + entries[i].size
  {
    assert entries[..i + 1][..i] == entries[..i];
  }

  function Names(entries: seq<Entry>): set<seq<Byte>> {
    set e | e in entries :: e.name
  }

  function LocalStarts(entries: seq<Entry>): set<nat> {
    set e | e in entries :: e.headerStart
  }

  function CentralStarts(entries: seq<Entry>): set<nat> {
    set e | e in entries :: e.centralStart
  }

  /** Entries and files, local spans and central spans correspond one to one. */
  ghost predicate OpenedFrom(bytes: seq<Byte>, entries: seq<Entry>, plain: seq<Byte> -> bool, o: Opened) {
    && (forall e {:trigger Placed(bytes, e, plain, o)} :: e in entries ==> Placed(bytes, e, plain, o))
    && o.files.Keys == Names(entries) && o.locals.Keys == LocalStarts(entries)
    && o.centrals.Keys == CentralStarts(entries)
    && |o.files| == |o.locals| == |o.centrals| == |entries|
    && TotalSize(entries) <= LIMIT
  }

  /** The central requirement: every byte of the file is in exactly one local span, one central
      span, or the end record. */
  ghost predicate Tiled(bytes: seq<Byte>, o: Opened) {
    && |bytes| >= 22 && o.directory <= |bytes| - 22
    && Partition(o.locals, 0, o.directory)
    && Partition(o.centrals, o.directory, |bytes| - 22)
  }

  ghost predicate Accepted(bytes: seq<Byte>, listing: Listing, plain: seq<Byte> -> bool, o: Opened) {
    && Readable(bytes, listing, plain) && o.directory == DirectoryStart(bytes)
    && OpenedFrom(bytes, listing.entries, plain, o)
    && Complete(bytes, o)
  }

  /** Every byte is indexed, no name is in the way of another, and there is a manifest. */
  ghost predicate Complete(bytes: seq<Byte>, o: Opened) {
    && Tiled(bytes, o)
    && NoConflict(o.files.Keys) && |Directories(o.files.Keys)| + |o.files| <= MAX_NODES
    && MANIFEST in o.files
  }

  /** Read one entry: check its headers, then its content against what remains of the budget. */
  method ReadEntry(bytes: seq<Byte>, e: Entry, plain: seq<Byte> -> bool, known: bool, remaining: nat)
    returns (r: Result<seq<Byte>, Error>)
    requires IsZip(bytes) && EndOk(bytes)
    ensures r.Ok? <==>
      && HeaderOk(e, plain) && !known && CentralOk(bytes, e) && LocalOk(bytes, e)
      && e.size <= SizeLimit(e.name) && e.size <= remaining && Content(e).Some?
    ensures r.Ok? ==> Content(e) == Some(r.value) && |r.value| == e.size
  {
    if !HeaderOk(e, plain) || known {
      return Err(BadEntry);
    }
    var limit := if SizeLimit(e.name) <= remaining then SizeLimit(e.name) else remaining;
    if e.size > limit {
      return Err(BadEntry);
    }
    if !CentralOk(bytes, e) {
      return Err(BadCentral);
    }
    if !LocalOk(bytes, e) {
      return Err(BadLocal);
    }
    if e.stream.None? {
      return Err(BadContent);
    }
    var take := if |e.stream.value| <= e.size + 1 then |e.stream.value| else e.size + 1;
    var content := e.stream.value[..take];
    if |content| != e.size {
      return Err(BadContent);
    }
    assert content == e.stream.value;
    r := Ok(content);
  }

  /** Adding one more entry to what is opened. */
  function Extended(bytes: seq<Byte>, o: Opened, e: Entry, content: seq<Byte>): Opened
    requires e.centralStart + 46 <= |bytes|
  {
    Opened(o.files[e.name := content], o.locals[e.headerStart := Stop(e)],
           o.centrals[e.centralStart := CentralEnd(bytes, e)], o.directory)
  }

  lemma PlacedStays(bytes: seq<Byte>, x: Entry, plain: seq<Byte> -> bool, o: Opened, e: Entry, content: seq<Byte>)
    requires Placed(bytes, x, plain, o) && e.centralStart + 46 <= |bytes|
    requires e.name !in o.files && e.headerStart !in o.locals && e.centralStart !in o.centrals
    ensures Placed(bytes, x, plain, Extended(bytes, o, e, content))
  {
  }

  lemma PlacedNow(bytes: seq<Byte>, plain: seq<Byte> -> bool, o: Opened, e: Entry, content: seq<Byte>)
    requires HeaderOk(e, plain) && CentralOk(bytes, e) && LocalOk(bytes, e)
    requires Content(e) == Some(content) && |content| == e.size <= SizeLimit(e.name)
    ensures Placed(bytes, e, plain, Extended(bytes, o, e, content))
  {
  }

  lemma ExtendKeepsOpened(bytes: seq<Byte>, entries: seq<Entry>, plain: seq<Byte> -> bool, o: Opened, e: Entry,
                          content: seq<Byte>)
    requires OpenedFrom(bytes, entries, plain, o) && HeaderOk(e, plain) && CentralOk(bytes, e) && LocalOk(bytes, e)
    requires
      && Content(e) == Some(content) && |content| == e.size <= SizeLimit(e.name)
      && TotalSize(entries) + e.size <= LIMIT
    requires e.name !in o.files && e.headerStart !in o.locals && e.centralStart !in o.centrals
    ensures OpenedFrom(bytes, entries + [e], plain, Extended(bytes, o, e, content))
  {
    var all, p := entries + [e], Extended(bytes, o, e, content);
    assert all[..|all| - 1] == entries;
    KeysGrow(entries, e);
    forall x {:trigger Placed(bytes, x, plain, p)} | x in all ensures Placed(bytes, x, plain, p) {
      if x in entries {
        assert Placed(bytes, x, plain, o);
        PlacedStays(bytes, x, plain, o, e, content);
      } else {
        PlacedNow(bytes, plain, o, e, content);
      }
    }
    assert TotalSize(all) == TotalSize(entries) + e.size;
    CountsGrow(bytes, o, e, content);
  }

  lemma KeysGrow(entries: seq<Entry>, e: Entry)
    ensures Names(entries + [e]) == Names(entries) + {e.name}
    ensures LocalStarts(entries + [e]) == LocalStarts(entries) + {e.headerStart}
    ensures CentralStarts(entries + [e]) == CentralStarts(entries) + {e.centralStart}
  {
  }

  lemma CountsGrow(bytes: seq<Byte>, o: Opened, e: Entry, content: seq<Byte>)
    requires e.centralStart + 46 <= |bytes|
    requires e.name !in o.files && e.headerStart !in o.locals && e.centralStart !in o.centrals
    ensures var p := Extended(bytes, o, e, content);
      && p.files.Keys == o.files.Keys + {e.name} && |p.files| == |o.files| + 1
      && p.locals.Keys == o.locals.Keys + {e.headerStart} && |p.locals| == |o.locals| + 1
      && p.centrals.Keys == o.centrals.Keys + {e.centralStart} && |p.centrals| == |o.centrals| + 1
  {
    MapGrows(o.files, e.name, content);
    MapGrows(o.locals, e.headerStart, Stop(e));
    MapGrows(o.centrals, e.centralStart, CentralEnd(bytes, e));
  }

  lemma MapGrows<K, V>(m: map<K, V>, k: K, v: V)
    requires k !in m
    ensures m[k := v].Keys == m.Keys + {k} && |m[k := v]| == |m| + 1
  {
  }

  /** Read all entries, keeping the spans and the remaining budget. */
  method ReadEntries(bytes: seq<Byte>, entries: seq<Entry>, plain: seq<Byte> -> bool) returns (r: Result<Opened, Error>)
    requires IsZip(bytes) && EndOk(bytes)
    ensures r.Ok? <==> AllFit(bytes, entries, plain)
    ensures r.Ok? ==> OpenedFrom(bytes, entries, plain, r.value) && r.value.directory == DirectoryStart(bytes)
  {
    var o := Opened(map[], map[], map[], DirectoryStart(bytes));
    var remaining: nat := LIMIT;
    for i := 0 to |entries|
      invariant OpenedFrom(bytes, entries[..i], plain, o) && o.directory == DirectoryStart(bytes)
      invariant remaining + TotalSize(entries[..i]) == LIMIT && FitUpTo(bytes, entries, plain, i)
    {
      FitStep(bytes, entries, plain, i);
      TakeStep(entries, i);
      var next := AddEntry(bytes, entries[..i], entries[i], plain, o, remaining);
      if next.Err? {
        return Err(next.error);
      }
      remaining := remaining - entries[i].size;
      o := next.value;
    }
    assert entries[..|entries|] == entries;
    r := Ok(o);
  }

  method AddEntry(bytes: seq<Byte>, ghost done: seq<Entry>, e: Entry, plain: seq<Byte> -> bool, o: Opened,
                  remaining: nat)
    returns (r: Result<Opened, Error>)
    requires IsZip(bytes) && EndOk(bytes) && OpenedFrom(bytes, done, plain, o) && remaining + TotalSize(done) == LIMIT
    ensures r.Ok? <==> Fits(bytes, done, e, plain)
    ensures r.Ok? ==>
      OpenedFrom(bytes, done + [e], plain, r.value) && r.value.directory == o.directory && e.size <= remaining
  {
    var content := ReadEntry(bytes, e, plain, e.name in o.files, remaining);
    if content.Err? {
      return Err(content.error);
    }
    if e.centralStart in o.centrals {
      return Err(BadCentral);
    }
    if e.headerStart in o.locals {
      return Err(BadLocal);
    }
    ExtendKeepsOpened(bytes, done, plain, o, e, content.value);
    r := Ok(Extended(bytes, o, e, content.value));
  }

  // ------------------------------------------------------------ directories of the archive

  lemma AncestorsAreDirectories(names: set<seq<Byte>>, n: seq<Byte>)
    requires n in names
    ensures Ancestors(n, SLASH) <= Directories(names)
  {
  }

  /** Note every directory above one file, in place of the ones noted before. */
  method AddAncestors(names: set<seq<Byte>>, known: set<seq<Byte>>, name: seq<Byte>) returns (r: Option<set<seq<Byte>>>)
    requires name in names && known <= Directories(names) && known !! names && |known| + |names| <= MAX_NODES
    ensures r.Some? ==>
      r.value == known + Ancestors(name, SLASH) && r.value !! names && |r.value| + |names| <= MAX_NODES
    ensures r.None? ==> !(NoConflict(names) && |Directories(names)| + |names| <= MAX_NODES)
  {
    var directories := known;
    var ancestor := name;
    AncestorsAreDirectories(names, name);
    while Parent(ancestor, SLASH).Some?
      invariant directories <= Directories(names) && directories !! names && |directories| + |names| <= MAX_NODES
      invariant Ancestors(ancestor, SLASH) <= Ancestors(name, SLASH) <= Directories(names)
      invariant directories + Ancestors(ancestor, SLASH) == known + Ancestors(name, SLASH)
      decreases |ancestor|
    {
      var parent := Parent(ancestor, SLASH).value;
      assert parent in Ancestors(name, SLASH);
      if parent in names {
        assert parent in Directories(names) * names;
        return None;
      }
      directories := directories + {parent};
      if |directories| + |names| > MAX_NODES {
        SubsetSize(directories, Directories(names));
        return None;
      }
      ancestor := parent;
    }
    r := Some(directories);
  }

  /** Walk the ancestors of every file: none may be a file, and files and directories together
      stay within the node budget. */
  method CheckDirectories(names: set<seq<Byte>>) returns (ok: bool)
    requires |names| <= MAX_ENTRIES
    ensures ok <==> NoConflict(names) && |Directories(names)| + |names| <= MAX_NODES
  {
    var directories: set<seq<Byte>> := {};
    var rest := names;
    while rest != {}
      invariant rest <= names && directories <= Directories(names)
      invariant forall n :: n in names && n !in rest ==> Ancestors(n, SLASH) <= directories
      invariant directories !! names && |directories| + |names| <= MAX_NODES
      decreases rest
    {
      var name :| name in rest;
      var found := AddAncestors(names, directories, name);
      if found.None? {
        return false;
      }
      AncestorsAreDirectories(names, name);
      rest := rest - {name};
      directories := found.value;
    }
    forall a | a in Directories(names) ensures a in directories {
      var n :| n in names && a in Ancestors(n, SLASH);
    }
    assert directories == Directories(names);
    ok := true;
  }

  lemma SameFiles(bytes: seq<Byte>, entries: seq<Entry>, plain: seq<Byte> -> bool, o: Opened, p: Opened)
    requires OpenedFrom(bytes, entries, plain, o) && OpenedFrom(bytes, entries, plain, p)
    ensures o.files == p.files
  {
    forall n | n in o.files ensures o.files[n] == p.files[n] {
      var e :| e in entries && e.name == n;
      assert Placed(bytes, e, plain, o) && Placed(bytes, e, plain, p);
    }
  }

  lemma SameLocals(bytes: seq<Byte>, entries: seq<Entry>, plain: seq<Byte> -> bool, o: Opened, p: Opened)
    requires OpenedFrom(bytes, entries, plain, o) && OpenedFrom(bytes, entries, plain, p)
    ensures o.locals == p.locals
  {
    forall s | s in o.locals ensures o.locals[s] == p.locals[s] {
      var e :| e in entries && e.headerStart == s;
      assert Placed(bytes, e, plain, o) && Placed(bytes, e, plain, p);
    }
  }

  lemma SameCentrals(bytes: seq<Byte>, entries: seq<Entry>, plain: seq<Byte> -> bool, o: Opened, p: Opened)
    requires OpenedFrom(bytes, entries, plain, o) && OpenedFrom(bytes, entries, plain, p)
    ensures o.centrals == p.centrals
  {
    forall s | s in o.centrals ensures o.centrals[s] == p.centrals[s] {
      var e :| e in entries && e.centralStart == s;
      assert Placed(bytes, e, plain, o) && Placed(bytes, e, plain, p);
    }
  }

  /** What was opened is determined by the entries. */
  lemma OpenedIsUnique(bytes: seq<Byte>, entries: seq<Entry>, plain: seq<Byte> -> bool, o: Opened, p: Opened)
    requires OpenedFrom(bytes, entries, plain, o) && OpenedFrom(bytes, entries, plain, p) && o.directory == p.directory
    ensures o == p
  {
    SameFiles(bytes, entries, plain, o, p);
    SameLocals(bytes, entries, plain, o, p);
    SameCentrals(bytes, entries, plain, o, p);
  }

  lemma NothingElseAccepted(bytes: seq<Byte>, listing: Listing, plain: seq<Byte> -> bool, o: Opened)
    requires IsZip(bytes) && OpenedFrom(bytes, listing.entries, plain, o) && o.directory == DirectoryStart(bytes)
    requires !Accepted(bytes, listing, plain, o)
    ensures !Acceptable(bytes, Some(listing), plain)
  {
    forall p ensures !Accepted(bytes, listing, plain, p) {
      if Accepted(bytes, listing, plain, p) {
        OpenedIsUnique(bytes, listing.entries, plain, o, p);
      }
    }
  }

  ghost predicate Acceptable(bytes: seq<Byte>, listing: Option<Listing>, plain: seq<Byte> -> bool) {
    listing.Some? && exists o :: Accepted(bytes, listing.value, plain, o)
  }

  /** The end record and the listing agree, and every entry can be read after the earlier ones. */
  ghost predicate Readable(bytes: seq<Byte>, listing: Listing, plain: seq<Byte> -> bool) {
    && IsZip(bytes) && EndOk(bytes)
    && |listing.entries| == U16(bytes, |bytes| - 22 + 10) && listing.offset == 0
    && AllFit(bytes, listing.entries, plain)
  }

  lemma UnreadableIsRefused(bytes: seq<Byte>, listing: Option<Listing>, plain: seq<Byte> -> bool)
    requires listing.None? || !Readable(bytes, listing.value, plain)
    ensures !Acceptable(bytes, listing, plain)
  {
  }

  lemma CompleteIsAccepted(bytes: seq<Byte>, listing: Listing, plain: seq<Byte> -> bool, o: Opened)
    requires Readable(bytes, listing, plain) && OpenedFrom(bytes, listing.entries, plain, o)
    requires o.directory == DirectoryStart(bytes)
    ensures Accepted(bytes, listing, plain, o) <==> Complete(bytes, o)
    ensures Acceptable(bytes, Some(listing), plain) <==> Complete(bytes, o)
  {
    if Complete(bytes, o) {
      assert Accepted(bytes, listing, plain, o);
    } else {
      NothingElseAccepted(bytes, listing, plain, o);
    }
  }

  /** Acceptance of a package file. Everything the ZIP library reports is checked against the bytes. */
  method WazRead(bytes: seq<Byte>, listing: Option<Listing>, plain: seq<Byte> -> bool)
    returns (r: Result<Opened, Error>)
    ensures r.Ok? ==> listing.Some? && Accepted(bytes, listing.value, plain, r.value)
    ensures r.Ok? <==> Acceptable(bytes, listing, plain)
  {
    r := ReadListing(bytes, listing, plain);
    if r.Err? {
      UnreadableIsRefused(bytes, listing, plain);
      return;
    }
    CompleteIsAccepted(bytes, listing.value, plain, r.value);
    var e := CheckComplete(bytes, listing.value.entries, plain, r.value);
    if e.Some? {
      r := Err(e.value);
    }
  }

  method ReadListing(bytes: seq<Byte>, listing: Option<Listing>, plain: seq<Byte> -> bool)
    returns (r: Result<Opened, Error>)
    ensures r.Ok? <==> listing.Some? && Readable(bytes, listing.value, plain)
    ensures r.Ok? ==>
      OpenedFrom(bytes, listing.value.entries, plain, r.value) && r.value.directory == DirectoryStart(bytes)
  {
    if !IsZip(bytes) {
      return Err(NotZip);
    }
    if !EndOk(bytes) {
      return Err(BadEnd);
    }
    if listing.None? || |listing.value.entries| != U16(bytes, |bytes| - 22 + 10) || listing.value.offset != 0 {
      return Err(Disagrees);
    }
    r := ReadEntries(bytes, listing.value.entries, plain);
  }

  /** The tests on all entries together. */
  method CheckComplete(bytes: seq<Byte>, entries: seq<Entry>, plain: seq<Byte> -> bool, o: Opened)
    returns (e: Option<Error>)
    requires IsZip(bytes) && EndOk(bytes) && o.directory == DirectoryStart(bytes)
    requires |entries| == U16(bytes, |bytes| - 22 + 10) && OpenedFrom(bytes, entries, plain, o)
    ensures e.None? <==> Complete(bytes, o)
  {
    SpansAreNonempty(bytes, entries, plain, o);
    var ok := CheckTiles(o.locals, 0, o.directory);
    if !ok {
      return Some(Unindexed);
    }
    ok := CheckTiles(o.centrals, o.directory, |bytes| - 22);
    if !ok {
      return Some(Unindexed);
    }
    assert |o.files.Keys| == |o.files|;
    ok := CheckDirectories(o.files.Keys);
    if !ok {
      return Some(Conflict);
    }
    e := if MANIFEST in o.files then None else Some(NoManifest);
  }

  lemma SpansAreNonempty(bytes: seq<Byte>, entries: seq<Entry>, plain: seq<Byte> -> bool, o: Opened)
    requires OpenedFrom(bytes, entries, plain, o)
    ensures forall s :: s in o.locals ==> s < o.locals[s]
    ensures forall s :: s in o.centrals ==> s < o.centrals[s]
  {
    forall s | s in o.locals ensures s < o.locals[s] {
      var e :| e in entries && e.headerStart == s;
      assert Placed(bytes, e, plain, o);
    }
    forall s | s in o.centrals ensures s < o.centrals[s] {
      var e :| e in entries && e.centralStart == s;
      assert Placed(bytes, e, plain, o);
    }
  }

  // ------------------------------------------------------------ what acceptance means

  /** In an accepted archive every byte has exactly one owner, unique within its kind. */
  lemma EveryByteIsIndexedOnce(bytes: seq<Byte>, listing: Listing, plain: seq<Byte> -> bool, o: Opened, k: nat)
    requires Accepted(bytes, listing, plain, o) && k < |bytes|
    ensures Covered(o.locals, k) <==> k < o.directory
    ensures Covered(o.centrals, k) <==> o.directory <= k < |bytes| - 22
    ensures forall s, t :: Covers(o.locals, s, k) && Covers(o.locals, t, k) ==> s == t
    ensures forall s, t :: Covers(o.centrals, s, k) && Covers(o.centrals, t, k) ==> s == t
  {
  }

  lemma PlacedSpan(bytes: seq<Byte>, plain: seq<Byte> -> bool, o: Opened, e: Entry)
    requires Placed(bytes, e, plain, o)
    ensures
      && |bytes| >= 22
      && e.headerStart + 30 + |e.name| <= e.dataStart <= Stop(e) <= DirectoryStart(bytes) <= |bytes| - 22
    ensures bytes[e.headerStart + 30..e.headerStart + 30 + |e.name|] == e.name
    ensures e.headerStart in o.locals && o.locals[e.headerStart] == Stop(e)
    ensures e.name in o.files && U32(bytes, e.headerStart + 22) == |o.files[e.name]|
    ensures U32(bytes, e.headerStart + 18) == Stop(e) - e.dataStart
  {
    LocalSpan(bytes, e);
  }

  lemma LocalSpan(bytes: seq<Byte>, e: Entry)
    requires LocalOk(bytes, e)
    ensures |bytes| >= 22 && e.headerStart + 30 + |e.name| <= e.dataStart <= Stop(e) <= DirectoryStart(bytes)
    ensures bytes[e.headerStart + 30..e.headerStart + 30 + |e.name|] == e.name
    ensures U32(bytes, e.headerStart + 22) == e.size && U32(bytes, e.headerStart + 18) == e.compressedSize
  {
  }

  /** Each local header, with its name and extra field, lies inside the entry's own span, and so does
      its data; the declared sizes in it are those of the content. */
  lemma HeadersLieInTheirSpan(bytes: seq<Byte>, listing: Listing, plain: seq<Byte> -> bool, o: Opened, e: Entry)
    requires Accepted(bytes, listing, plain, o) && e in listing.entries
    ensures e.headerStart + 30 + |e.name| <= e.dataStart <= Stop(e) <= o.directory <= |bytes| - 22 && e.name in o.files
    ensures bytes[e.headerStart + 30..e.headerStart + 30 + |e.name|] == e.name
    ensures forall k :: e.headerStart <= k < Stop(e) ==> Covers(o.locals, e.headerStart, k)
    ensures
      && U32(bytes, e.headerStart + 22) == |o.files[e.name]|
      && U32(bytes, e.headerStart + 18) == Stop(e) - e.dataStart
  {
    assert Placed(bytes, e, plain, o);
    PlacedSpan(bytes, plain, o, e);
  }

  function TotalContent(files: map<seq<Byte>, seq<Byte>>, entries: seq<Entry>): nat {
    if entries == [] then 0
    else TotalContent(files, entries[..|entries| - 1]) +
         (var n := entries[|entries| - 1].name; if n in files then |files[n]| else 0)
  }

  /** The decompressed total is the sum of the declared sizes and stays within the limit. */
  lemma {:induction false} DecompressedTotal(bytes: seq<Byte>, entries: seq<Entry>, plain: seq<Byte> -> bool, o: Opened)
    requires forall e {:trigger Placed(bytes, e, plain, o)} :: e in entries ==> Placed(bytes, e, plain, o)
    ensures TotalContent(o.files, entries) == TotalSize(entries)
  {
    if entries != [] {
      var front := entries[..|entries| - 1];
      assert forall e :: e in front ==> e in entries;
      DecompressedTotal(bytes, front, plain, o);
      assert Placed(bytes, entries[|entries| - 1], plain, o);
    }
  }

  lemma AcceptedTotalIsBounded(bytes: seq<Byte>, listing: Listing, plain: seq<Byte> -> bool, o: Opened)
    requires Accepted(bytes, listing, plain, o)
    ensures TotalContent(o.files, listing.entries) <= LIMIT
  {
    DecompressedTotal(bytes, listing.entries, plain, o);
  }
}
