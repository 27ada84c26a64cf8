/** The window arithmetic of download, and readers that fetch a version chunk by chunk. */
module Downloads {
  import opened Wrappers
  import opened Keys
  import opened Store
  import opened Invariant
  import opened AbstractFs
  import opened Refinement
  import opened History

  datatype Chunk = Chunk(data: Bytes, more: bool)

  function Min(a: nat, b: nat): nat
  {
    if a <= b then a else b
  }

  /** What one read at `offset` into a buffer of `size` bytes returns. */
  function ReadAt(blob: Bytes, offset: nat, size: nat): Bytes
  {
    if offset >= |blob| then [] else blob[offset..][..Min(size, |blob| - offset)]
  }

  /** The part of download that follows the lookup of the version's row. */
  function ReadWindow(row: Version, blobs: Files, offset: U64, length: U64): Result<Chunk, Error>
  {
    var known := row.length != UNKNOWN_SIZE;
    if offset > 0 && known && offset > row.length then Err(BeyondEnd)
    else if row.blob.None? || row.blob.value !in blobs || offset > MAX_FILE then Err(Io)
    else if known && offset + length >= U64_LIMIT then Err(Overflow)
    else
      var wanted := if known && offset + length > row.length then row.length - offset else length;
      var size := Min(wanted, MAX_READ_SIZE);
      var data := ReadAt(blobs[row.blob.value], offset, size);
      Ok(Chunk(data, |data| == size))
  }

  function Download(c: Config, s: State, path: Path, version: Option<U64>, offset: U64, length: U64)
    : Result<Chunk, Error>
  {
    DownloadFound(s, FindFile(c, s, path), version, offset, length)
  }

  /** What follows the lookup. */
  function DownloadFound(s: State, found: Result<Bytes, Error>, version: Option<U64>, offset: U64, length: U64)
    : Result<Chunk, Error>
    requires found.Ok? ==> found.value in s.fs
  {
    match found
    case Err(e) => Err(e)
    case Ok(key) =>
      var r := s.fs[key];
      var requested := if version.Some? then version.value else r.latest;
      if !Readable(r.kind) then Err(NotReadable)
      else if (r.id, requested) !in s.ver then Err(MissingVersion)
      else ReadWindow(s.ver[(r.id, requested)], s.blobs, offset, length)
  }

  /** The window is exactly the part of the version's contents that was asked for, up to the read
      limit, and it is refused exactly beyond the end of a version of known length, where no file
      can reach, or when the end of a window of known length does not fit in 64 bits. */
  lemma WindowIsSlice(row: Version, blobs: Files, offset: U64, length: U64)
    requires HeldAt(row, blobs, {})
    ensures var (content, known) := (ReadRow(row, blobs).bytes, row.length != UNKNOWN_SIZE);
            var r := ReadWindow(row, blobs, offset, length);
            && (r.Ok? <==> offset <= MAX_FILE && (known ==> offset <= |content| && offset + length < U64_LIMIT))
            && (r.Ok? ==> r.value.data == ReadAt(content, offset, Min(length, MAX_READ_SIZE)))
  {
    var content, blob := ReadRow(row, blobs).bytes, blobs[row.blob.value];
    if row.length != UNKNOWN_SIZE && offset < row.length {
      var n := Min(Min(length, MAX_READ_SIZE), row.length - offset);
      assert content == blob[..row.length];
      assert content[offset..][..n] == blob[offset..offset + n] == blob[offset..][..n];
    }
  }

  /** How many bytes are asked for where the sum of offset and length wraps around at 64 bits, as it
      does in builds that do not check for overflow. */
  function WrappedSize(row: Version, offset: U64, length: U64): nat
    requires offset <= row.length
  {
    var wanted := if (offset + length) % U64_LIMIT > row.length then row.length - offset else length;
    Min(wanted, MAX_READ_SIZE)
  }

  /** In such a build a window of known length that starts within the version is the part asked for
      exactly when the sum does not wrap to within the version, or there is nothing to read beyond the
      version's end in one chunk. */
  lemma WrappedIsSliceIff(row: Version, blobs: Files, offset: U64, length: U64)
    requires HeldAt(row, blobs, {}) && FileSizes(blobs) && row.length != UNKNOWN_SIZE && offset <= row.length
    ensures var (content, blob) := (ReadRow(row, blobs).bytes, blobs[row.blob.value]);
            var right := ReadAt(content, offset, Min(length, MAX_READ_SIZE));
            ReadAt(blob, offset, WrappedSize(row, offset, length)) == right <==>
            || offset + length < U64_LIMIT
            || offset + length - U64_LIMIT > row.length
            || |blob| == row.length
            || row.length - offset >= MAX_READ_SIZE
  {
    var content, blob := ReadRow(row, blobs).bytes, blobs[row.blob.value];
    assert content == blob[..row.length];
    if offset + length >= U64_LIMIT {
      assert (offset + length) % U64_LIMIT == offset + length - U64_LIMIT;
      assert length > MAX_READ_SIZE;
    }
    forall n: nat | offset < row.length
      ensures n <= row.length - offset ==> content[offset..][..n] == blob[offset..][..n]
    {
    }
  }

  /** `more` is false exactly when the length is unknown and the file ended inside the window. So
      it is never false before the end, but for a version of known length it is always true. */
  lemma MoreIff(row: Version, blobs: Files, offset: U64, length: U64)
    requires HeldAt(row, blobs, {}) && ReadWindow(row, blobs, offset, length).Ok?
    ensures var content := ReadRow(row, blobs).bytes;
            !ReadWindow(row, blobs, offset, length).value.more <==>
            row.length == UNKNOWN_SIZE && |content| - offset < Min(length, MAX_READ_SIZE) && 0 < length
  {
  }

  /** In numbers: a request gets all that is left of the version from its offset on, up to as many bytes
      as were asked for and up to 8,388,608. */
  lemma ChunkIsWhatIsLeft(row: Version, blobs: Files, offset: U64, length: U64)
    requires HeldAt(row, blobs, {}) && FileSizes(blobs)
    requires row.length != UNKNOWN_SIZE ==> offset <= row.length && offset + length < U64_LIMIT
    requires offset <= |blobs[row.blob.value]|
    ensures var (content, r) := (ReadRow(row, blobs).bytes, ReadWindow(row, blobs, offset, length));
            && |content| == (if row.length != UNKNOWN_SIZE then row.length else |blobs[row.blob.value]|) && r.Ok?
            && var (left, asked) := (|content| - offset, if length <= 8_388_608 then length else 8_388_608);
               r.value.data == content[offset..offset + (if asked <= left then asked else left)]
  {
    WindowIsSlice(row, blobs, offset, length);
  }

  // ----- On paths -----

  /** What a reading gives for a window. */
  function AbsWindow(r: Reading, offset: U64, length: U64): Result<Chunk, Error>
  {
    if r.Unreadable? then Err(Io)
    else if r.fixed && offset > |r.bytes| then Err(BeyondEnd)
    else if offset > MAX_FILE then Err(Io)
    else if r.fixed && offset + length >= U64_LIMIT then Err(Overflow)
    else
      var asked := Min(length, MAX_READ_SIZE);
      var data := ReadAt(r.bytes, offset, asked);
      Ok(Chunk(data, r.fixed || |data| == asked))
  }

  ghost function AbsDownload(v: Fs, p: Path, version: Option<U64>, offset: U64, length: U64): Result<Chunk, Error>
  {
    match AbsFind(v, p)
    case Err(e) => Err(e)
    case Ok(node) =>
      var n := if version.Some? then version.value else node.latest;
      if !Readable(node.kind) then Err(NotReadable)
      else if !(1 <= n <= |node.versions|) then Err(MissingVersion)
      else AbsWindow(node.versions[n - 1], offset, length)
  }

  lemma WindowRefines(row: Version, blobs: Files, offset: U64, length: U64)
    requires HeldAt(row, blobs, {}) && FileSizes(blobs)
    ensures ReadWindow(row, blobs, offset, length) == AbsWindow(ReadRow(row, blobs), offset, length)
  {
    WindowIsSlice(row, blobs, offset, length);
    if ReadWindow(row, blobs, offset, length).Ok? {
      MoreIff(row, blobs, offset, length);
    }
  }

  lemma FoundRefines(s: State, key: Bytes, n: U64)
    requires VersionInv(s) && key in s.fs
    ensures var (r, node) := (s.fs[key], Show(s.ver, s.blobs, s.fs[key]));
            && ((r.id, n) in s.ver <==> 1 <= n <= |node.versions|)
            && ((r.id, n) in s.ver ==>
                  HeldAt(s.ver[(r.id, n)], s.blobs, {}) && node.versions[n - 1] == ReadRow(s.ver[(r.id, n)], s.blobs))
  {
    assert DenseAt(s.ver, s.fs[key]);
    if (s.fs[key].id, n) in s.ver {
      assert HeldAt(s.ver[(s.fs[key].id, n)], s.blobs, s.issued);
    }
  }

  /** A download is a lookup and a slice of what paths show, errors included. */
  lemma DownloadRefines(c: Config, s: State, path: Path, version: Option<U64>, offset: U64, length: U64)
    requires VersionInv(s)
    ensures Download(c, s, path, version, offset, length) ==
            AbsDownload(View(c.host, s), Nfkd(c, path), version, offset, length)
  {
    hide VersionInv, View, FindFile, ReadWindow, AbsWindow, Show, ReadRow;
    FindRefines(c, s, path);
    if FindFile(c, s, path).Ok? {
      var key := FindFile(c, s, path).value;
      var n := if version.Some? then version.value else s.fs[key].latest;
      FoundRefines(s, key, n);
      SizesOf(s);
      ShownAs(s.ver, s.blobs, s.fs[key]);
      if (s.fs[key].id, n) in s.ver {
        WindowRefines(s.ver[(s.fs[key].id, n)], s.blobs, offset, length);
      }
    }
  }

  lemma SizesOf(s: State)
    requires VersionInv(s)
    ensures FileSizes(s.blobs)
  {
  }

  lemma ShownAs(ver: Versions, blobs: Files, r: Record)
    ensures Show(ver, blobs, r).kind == r.kind && Show(ver, blobs, r).latest == r.latest
  {
  }

  // ----- Readers -----

  /** A reader that asks for `length` bytes at a time, each time from where it got to, and goes on
      as long as it gets something. */
  ghost predicate Session(row: Version, blobs: Files, length: U64, chunks: seq<Bytes>)
  {
    chunks == [] ||
    var before := Front(chunks);
    && Session(row, blobs, length, before)
    && |Flatten(before)| < U64_LIMIT
    && Last(chunks) != []
    && ReadWindow(row, blobs, |Flatten(before)|, length).Ok?
    && ReadWindow(row, blobs, |Flatten(before)|, length).value.data == Last(chunks)
  }

  lemma NextSlice(content: Bytes, offset: nat, size: nat)
    requires offset <= |content|
    ensures var got := ReadAt(content, offset, size);
            offset + |got| <= |content| && content[..offset] + got == content[..offset + |got|]
  {
  }

  /** What a reader has is always the beginning of the version; it has made no more requests than
      there are bytes; and it is stopped by nothing but the end, where it has everything. */
  lemma {:induction false} ReaderRebuilds(row: Version, blobs: Files, length: U64, chunks: seq<Bytes>)
    requires HeldAt(row, blobs, {}) && FileSizes(blobs) && Session(row, blobs, length, chunks)
    requires length > 0 && (row.length == UNKNOWN_SIZE || row.length + length < U64_LIMIT)
    ensures var (content, n) := (ReadRow(row, blobs).bytes, |Flatten(chunks)|);
            && |chunks| <= n <= |content| <= MAX_FILE && Flatten(chunks) == content[..n]
            && ReadWindow(row, blobs, n, length).Ok?
            && (ReadWindow(row, blobs, n, length).value.data == [] <==> Flatten(chunks) == content)
  {
    hide ReadWindow;
    var content := ReadRow(row, blobs).bytes;
    if chunks != [] {
      var before := Front(chunks);
      ReaderRebuilds(row, blobs, length, before);
      WindowIsSlice(row, blobs, |Flatten(before)|, length);
      NextSlice(content, |Flatten(before)|, Min(length, MAX_READ_SIZE));
    }
    var n := |Flatten(chunks)|;
    WindowIsSlice(row, blobs, n, length);
    if n == |content| {
      assert content[..n] == content;
    }
  }

  // ----- Readers beside other clients -----

  /** What other clients did since the reader's last request, and what the reader got then. */
  datatype Fetch = Fetch(calls: seq<Call>, data: Bytes)

  function StateAfter(c: Config, s: State, fetches: seq<Fetch>): State
  {
    if fetches == [] then s
    else Run(c, StateAfter(c, s, Front(fetches)), Last(fetches).calls)
  }

  function Got(fetches: seq<Fetch>): Bytes
  {
    if fetches == [] then [] else Got(Front(fetches)) + Last(fetches).data
  }

  /** The version is there, and a request from `offset` is answered with `data`. */
  ghost predicate Answers(s: State, iv: (U64, U64), offset: nat, length: U64, data: Bytes)
  {
    && offset < U64_LIMIT && HasRow(s.fs, iv.0) && iv in s.ver
    && ReadWindow(s.ver[iv], s.blobs, offset, length).Ok?
    && ReadWindow(s.ver[iv], s.blobs, offset, length).value.data == data
  }

  /** A reader of one version, between whose requests other clients make calls of every kind. */
  ghost predicate BusySession(c: Config, s: State, iv: (U64, U64), length: U64, fetches: seq<Fetch>)
  {
    fetches == [] ||
    var (before, last) := (Front(fetches), Last(fetches));
    && BusySession(c, s, iv, length, before)
    && AdmissibleRun(c, StateAfter(c, s, before), last.calls)
    && last.data != [] && Answers(StateAfter(c, s, fetches), iv, |Got(before)|, length, last.data)
  }

  /** The version in a later state is the version that the reader began with. */
  ghost predicate SameVersion(s: State, s': State, iv: (U64, U64))
  {
    && iv in s.ver && iv in s'.ver && s'.ver[iv] == s.ver[iv]
    && ReadVersion(s'.ver, s'.blobs, iv.0, iv.1) == ReadVersion(s.ver, s.blobs, iv.0, iv.1)
  }

  /** What the reader has is the beginning of the contents, and a further request is answered, with
      nothing exactly when there is nothing left. */
  ghost predicate Rebuilding(row: Version, blobs: Files, content: Bytes, length: U64, got: Bytes)
  {
    && |got| <= |content| && got == content[..|got|] && |got| < U64_LIMIT
    && ReadWindow(row, blobs, |got|, length).Ok?
    && (ReadWindow(row, blobs, |got|, length).value.data == [] <==> got == content)
  }

  lemma FetchFrom(h: Host, s: State, iv: (U64, U64), offset: nat, length: U64)
    requires Inv(h, s) && iv in s.ver && s.ver[iv].length != UNKNOWN_SIZE
    requires length > 0 && s.ver[iv].length + length < U64_LIMIT
    requires offset <= |ReadRow(s.ver[iv], s.blobs).bytes|
    ensures ReadRow(s.ver[iv], s.blobs).Reading?
    ensures var (content, r) := (ReadRow(s.ver[iv], s.blobs).bytes, ReadWindow(s.ver[iv], s.blobs, offset, length));
            && r.Ok? && offset + |r.value.data| <= |content| <= MAX_FILE
            && content[..offset] + r.value.data == content[..offset + |r.value.data|]
            && (r.value.data == [] <==> offset == |content|)
  {
    assert HeldAt(s.ver[iv], s.blobs, s.issued);
    WindowIsSlice(s.ver[iv], s.blobs, offset, length);
    NextSlice(ReadRow(s.ver[iv], s.blobs).bytes, offset, Min(length, MAX_READ_SIZE));
  }

  /** A reader of a version of known length rebuilds it even while others append to the file,
      upload newer versions of it, or move it: as long as the file is not deleted, what the reader
      has is the beginning of the version as it was when it began, and its requests are answered
      with nothing exactly when it has all of it. */
  lemma {:induction false} BusyReaderRebuilds(
    c: Config, s: State, iv: (U64, U64), length: U64, fetches: seq<Fetch>)
    requires Sound(c.rep) && Inv(c.host, s) && iv in s.ver && s.ver[iv].length != UNKNOWN_SIZE
    requires length > 0 && s.ver[iv].length + length < U64_LIMIT
    requires BusySession(c, s, iv, length, fetches)
    ensures var (s', got) := (StateAfter(c, s, fetches), Got(fetches));
            && Inv(c.host, s') && SameVersion(s, s', iv) && ReadRow(s.ver[iv], s.blobs).Reading?
            && |fetches| <= |got| && Rebuilding(s'.ver[iv], s'.blobs, ReadRow(s.ver[iv], s.blobs).bytes, length, got)
  {
    hide Inv, VersionInv, ReadWindow, ReadRow, Run, AdmissibleRun;
    var s' := StateAfter(c, s, fetches);
    if fetches != [] {
      var (before, last) := (Front(fetches), Last(fetches));
      BusyReaderRebuilds(c, s, iv, length, before);
      RunKeeps(c, StateAfter(c, s, before), last.calls);
      VersionsAreFrozen(c, StateAfter(c, s, before), last.calls, iv);
      FetchFrom(c.host, s', iv, |Got(before)|, length);
    }
    FetchFrom(c.host, s', iv, |Got(fetches)|, length);
  }
}
