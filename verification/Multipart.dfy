/** Multipart transport of distribution objects (scripts/distribution_transport.py): splitting into
    content-addressed parts, validating the parts of a locator, and reassembling. */
module Multipart {
  import opened Collections
  import opened Text

  type Bytes = seq<bv8>

  datatype Part = Part(index: int, file: string, sha: string, size: int)

  /** A part as a locator lists it. */
  datatype Listed = Listed(index: int, urls: seq<string>, sha: string, size: int)

  const MAX_PARTS := 64
  const MAX_OBJECT_BYTES := 32 * 1024 * 1024 * 1024
  const MAX_PART_BYTES := 1900 * 1024 * 1024
  const BLOCK := 1024 * 1024

  predicate HexDigest(d: string) {
    |d| == 64 && forall i | 0 <= i < 64 :: '0' <= d[i] <= '9' || 'a' <= d[i] <= 'f'
  }

  // ---- part names ---------------------------------------------------------------------------

  function Digit(d: nat): char
    requires d < 10
  {
    '0' + d as char
  }

  function Decimal(n: nat): string {
    if n < 10 then [Digit(n)] else Decimal(n / 10) + [Digit(n % 10)]
  }

  function Zeros(k: nat): string { seq(k, _ => '0') }

  function Padded(n: nat): string {
    var d := Decimal(n);
    if |d| < 4 then Zeros(4 - |d|) + d else d
  }

  function PartName(name: string, index: nat, digest: string): string {
    name + ".part" + Padded(index) + ".sha256-" + digest
  }

  /** The number a string of digits writes. */
  function Number(s: string): int {
    if s == "" then 0 else 10 * Number(s[..|s| - 1]) + (s[|s| - 1] as int - '0' as int)
  }

  lemma {:induction false} NumberOfDecimal(n: nat)
    ensures Number(Decimal(n)) == n
  {
    if n >= 10 {
      NumberOfDecimal(n / 10);
      assert Decimal(n)[..|Decimal(n)| - 1] == Decimal(n / 10);
    } else {
      assert [Digit(n)][..0] == "";
    }
  }

  lemma {:induction false} NumberPadded(k: nat, s: string)
    ensures Number(Zeros(k) + s) == Number(s)
    decreases k + |s|
  {
    var t := Zeros(k) + s;
    if s != "" {
      NumberPadded(k, s[..|s| - 1]);
      assert t[..|t| - 1] == Zeros(k) + s[..|s| - 1];
    } else if k > 0 {
      NumberPadded(k - 1, s);
      assert t[..|t| - 1] == Zeros(k - 1) + s;
    } else {
      assert t == s;
    }
  }

  lemma NumberOfPadded(n: nat)
    ensures Number(Padded(n)) == n
  {
    NumberOfDecimal(n);
    if |Decimal(n)| < 4 { NumberPadded(4 - |Decimal(n)|, Decimal(n)); }
  }

  lemma SameMiddle(p: string, x: string, s: string, y: string, t: string)
    requires |s| == |t| && p + x + s == p + y + t
    ensures x == y
  {
    assert x == (p + x + s)[|p|..|p + x + s| - |s|];
    assert y == (p + y + t)[|p|..|p + y + t| - |t|];
  }

  /** The index can be read off a part's file name. */
  lemma PartNamesDiffer(name: string, i: nat, d: string, j: nat, e: string)
    requires |d| == |e| && PartName(name, i, d) == PartName(name, j, e)
    ensures i == j
  {
    var p := name + ".part";
    assert PartName(name, i, d) == p + Padded(i) + (".sha256-" + d);
    assert PartName(name, j, e) == p + Padded(j) + (".sha256-" + e);
    SameMiddle(p, Padded(i), ".sha256-" + d, Padded(j), ".sha256-" + e);
    NumberOfPadded(i);
    NumberOfPadded(j);
  }

  // ---- splitting ----------------------------------------------------------------------------

  /** Successive reads of at most `max` bytes. */
  function Chunks(content: Bytes, max: nat): seq<Bytes>
    requires max > 0
    decreases |content|
  {
    if content == [] then []
    else if |content| <= max then [content]
    else [content[..max]] + Chunks(content[max..], max)
  }

  function Concat(chunks: seq<Bytes>): Bytes {
    if chunks == [] then [] else chunks[0] + Concat(chunks[1..])
  }

  lemma {:induction false} ConcatTwo(a: seq<Bytes>, b: seq<Bytes>)
    ensures Concat(a + b) == Concat(a) + Concat(b)
  {
    if a == [] {
      assert a + b == b;
    } else {
      assert (a + b)[0] == a[0] && (a + b)[1..] == a[1..] + b;
      ConcatTwo(a[1..], b);
      assert a[0] + (Concat(a[1..]) + Concat(b)) == a[0] + Concat(a[1..]) + Concat(b);
    }
  }

  /** The chunks put together are the content, and none is empty or too large. */
  lemma {:induction false} ChunksAre(content: Bytes, max: nat)
    requires max > 0
    ensures Concat(Chunks(content, max)) == content
    ensures forall i | 0 <= i < |Chunks(content, max)| :: 1 <= |Chunks(content, max)[i]| <= max
    ensures content != [] <==> Chunks(content, max) != []
    decreases |content|
  {
    if content == [] {
    } else if |content| <= max {
      assert Concat([content]) == content + Concat([]);
    } else {
      ChunksAre(content[max..], max);
      assert Chunks(content, max)[1..] == Chunks(content[max..], max);
      assert content == content[..max] + content[max..];
    }
  }

  /** There are at most `k` chunks exactly when the content has at most `k` times the part size. */
  lemma {:induction false} ChunkCount(content: Bytes, max: nat, k: nat)
    requires max > 0
    ensures |Chunks(content, max)| <= k <==> |content| <= k * max
    decreases |content|
  {
    if |content| > max {
      ChunkCount(content[max..], max, if k > 0 then k - 1 else 0);
      assert |Chunks(content, max)| == 1 + |Chunks(content[max..], max)|;
      assert k > 0 ==> k * max == (k - 1) * max + max;
    } else {
      assert k > 0 ==> k * max >= max;
    }
  }

  predicate NameFine(name: string) {
    name != "" && '/' !in name && '\\' !in name
  }

  predicate SplitAllowed(content: Bytes, max: int, name: string) {
    0 < |content| <= MAX_OBJECT_BYTES && 0 < max <= MAX_PART_BYTES && NameFine(PythonStrip(name))
  }

  function PartOf(hash: Bytes -> string, chunk: Bytes, index: nat, name: string): Part {
    Part(index, PartName(name, index, hash(chunk)), hash(chunk), |chunk|)
  }

  function Maker(hash: Bytes -> string, name: string): (Bytes, nat) -> Part {
    (chunk: Bytes, index: nat) => PartOf(hash, chunk, index, name)
  }

  /** The rows of a split, and the files it leaves. */
  predicate Describes(make: (Bytes, nat) -> Part, parts: seq<Part>, chunks: seq<Bytes>) {
    |parts| == |chunks| && forall i | 0 <= i < |parts| :: parts[i] == make(chunks[i], i)
  }

  predicate Stored(parts: seq<Part>, chunks: seq<Bytes>, dir: map<string, Bytes>) {
    |parts| == |chunks| && forall i | 0 <= i < |parts| :: parts[i].file in dir && dir[parts[i].file] == chunks[i]
  }

  predicate Kept(dir: map<string, Bytes>, dir': map<string, Bytes>) {
    forall f | f in dir :: f in dir' && dir'[f] == dir[f]
  }

  /** Whatever is new in the directory is one of the parts, and every part is new. */
  ghost predicate NewParts(dir: map<string, Bytes>, dir': map<string, Bytes>, rows: seq<Part>) {
    && (forall f | f in dir' && f !in dir :: exists i :: 0 <= i < |rows| && rows[i].file == f)
    && (forall i | 0 <= i < |rows| :: rows[i].file !in dir)
  }

  /** How far a split has come. */
  ghost predicate Halfway(make: (Bytes, nat) -> Part, rows: seq<Part>, done: seq<Bytes>,
                          dir: map<string, Bytes>, dir': map<string, Bytes>) {
    Describes(make, rows, done) && Stored(rows, done, dir') && Kept(dir, dir') && NewParts(dir, dir', rows)
  }

  lemma StoreOne(make: (Bytes, nat) -> Part, rows: seq<Part>, done: seq<Bytes>, dir: map<string, Bytes>,
                 dir': map<string, Bytes>, data: Bytes)
    requires Halfway(make, rows, done, dir, dir') && make(data, |rows|).file !in dir'
    ensures Halfway(make, rows + [make(data, |rows|)], done + [data], dir, dir'[make(data, |rows|).file := data])
  {
    var row := make(data, |rows|);
    var rows', dir'' := rows + [row], dir'[row.file := data];
    forall f | f in dir'' && f !in dir ensures exists i :: 0 <= i < |rows'| && rows'[i].file == f {
      if f == row.file {
        assert rows'[|rows|].file == f;
      } else {
        var i :| 0 <= i < |rows| && rows[i].file == f;
        assert rows'[i].file == f;
      }
    }
  }

  /** Parts of different indices have different files. */
  ghost predicate Separate(make: (Bytes, nat) -> Part) {
    forall c, i, d, j | i != j :: make(c, i).file != make(d, j).file
  }

  lemma MakerSeparate(hash: Bytes -> string, safe: string)
    requires forall b :: HexDigest(hash(b))
    ensures Separate(Maker(hash, safe))
  {
    var make := Maker(hash, safe);
    forall c, i, d, j | i != j ensures make(c, i).file != make(d, j).file {
      if make(c, i).file == make(d, j).file { PartNamesDiffer(safe, i, hash(c), j, hash(d)); }
    }
  }

  lemma Collides(make: (Bytes, nat) -> Part, rows: seq<Part>, done: seq<Bytes>, dir: map<string, Bytes>,
                 dir': map<string, Bytes>, data: Bytes)
    requires Halfway(make, rows, done, dir, dir') && Separate(make) && make(data, |rows|).file in dir'
    ensures make(data, |rows|).file in dir
  {
  }

  /** Some target of the split is in the way. */
  ghost predicate Blocked(make: (Bytes, nat) -> Part, chunks: seq<Bytes>, dir: map<string, Bytes>) {
    exists i :: 0 <= i < |chunks| && make(chunks[i], i).file in dir
  }

  /** A split that has come to its end was not blocked. */
  lemma Unblocked(make: (Bytes, nat) -> Part, rows: seq<Part>, chunks: seq<Bytes>, dir: map<string, Bytes>,
                  dir': map<string, Bytes>)
    requires Halfway(make, rows, chunks, dir, dir')
    ensures !Blocked(make, chunks, dir)
  {
  }

  lemma BlockedHere(make: (Bytes, nat) -> Part, done: seq<Bytes>, data: Bytes, rest: seq<Bytes>,
                    dir: map<string, Bytes>)
    requires make(data, |done|).file in dir
    ensures Blocked(make, done + ([data] + rest), dir)
  {
    assert (done + ([data] + rest))[|done|] == data;
  }

  lemma ChunksOnward(content: Bytes, max: nat, done: seq<Bytes>, data: Bytes, rest: seq<Bytes>)
    requires max > 0 && Chunks(content, max) == done + ([data] + rest)
    ensures Chunks(content, max) == (done + [data]) + rest
  {
    assert done + ([data] + rest) == (done + [data]) + rest;
  }

  function Next(content: Bytes, at: nat, max: nat): Bytes
    requires at <= |content|
  {
    if |content| - at <= max then content[at..] else content[at..at + max]
  }

  lemma NextChunk(content: Bytes, at: nat, max: nat)
    requires max > 0 && at < |content|
    ensures var data := Next(content, at, max);
            && 0 < |data| <= |content| - at
            && Chunks(content[at..], max) == [data] + Chunks(content[at + |data|..], max)
  {
    var rest := content[at..];
    assert |rest| > max ==> rest[..max] == content[at..at + max] && rest[max..] == content[at + max..];
    assert |rest| <= max ==> content[at + |rest|..] == [];
  }

  /** One turn of the reading loop of `split_file`. */
  method WritePart(make: (Bytes, nat) -> Part, rows: seq<Part>, data: Bytes, ghost done: seq<Bytes>,
                   ghost dir: map<string, Bytes>, now: map<string, Bytes>)
    returns (ok: bool, rows': seq<Part>, now': map<string, Bytes>)
    requires Halfway(make, rows, done, dir, now) && Separate(make)
    ensures ok ==> Halfway(make, rows', done + [data], dir, now')
    ensures !ok ==> now' == now && rows' == rows && make(data, |rows|).file in dir
  {
    var row := make(data, |rows|);
    if row.file in now {
      Collides(make, rows, done, dir, now, data);
      return false, rows, now;
    }
    StoreOne(make, rows, done, dir, now, data);
    return true, rows + [row], now[row.file := data];
  }

  /** The reading loop of `split_file`. */
  method WriteParts(make: (Bytes, nat) -> Part, content: Bytes, dir: map<string, Bytes>, max: nat)
    returns (parts: Option<seq<Part>>, dir': map<string, Bytes>)
    requires max > 0 && Separate(make)
    ensures Kept(dir, dir')
    ensures parts.Some? <==> !Blocked(make, Chunks(content, max), dir)
    ensures parts.Some? ==>
              && Describes(make, parts.value, Chunks(content, max)) && Stored(parts.value, Chunks(content, max), dir')
              && NewParts(dir, dir', parts.value)
  {
    var rows, at := [], 0;
    ghost var done: seq<Bytes> := [];
    dir' := dir;
    assert content[0..] == content;
    while at < |content|
      invariant 0 <= at <= |content| && Chunks(content, max) == done + Chunks(content[at..], max)
      invariant Halfway(make, rows, done, dir, dir')
      decreases |content| - at
    {
      NextChunk(content, at, max);
      var data, ok := Next(content, at, max), false;
      ghost var rest := Chunks(content[at + |data|..], max);
      ok, rows, dir' := WritePart(make, rows, data, done, dir, dir');
      if !ok {
        BlockedHere(make, done, data, rest, dir);
        return None, dir';
      }
      ChunksOnward(content, max, done, data, rest);
      at, done := at + |data|, done + [data];
    }
    assert done == Chunks(content, max);
    Unblocked(make, rows, done, dir, dir');
    parts := Some(rows);
  }

  /** `split_file`: the rows and the directory afterwards. It is refused exactly when the request is not
      allowed or a target is in the way, adds exactly the parts, and never touches a file that was there. */
  method SplitFile(hash: Bytes -> string, content: Bytes, dir: map<string, Bytes>, max: int, name: string)
    returns (parts: Option<seq<Part>>, dir': map<string, Bytes>)
    requires forall b :: HexDigest(hash(b))
    ensures Kept(dir, dir')
    ensures parts.Some? <==>
              && 0 < |content| <= 32 * 1024 * 1024 * 1024 && 0 < max <= 1900 * 1024 * 1024
              && PythonStrip(name) != "" && '/' !in PythonStrip(name) && '\\' !in PythonStrip(name)
              && !Blocked(Maker(hash, PythonStrip(name)), Chunks(content, max), dir)
    ensures parts.Some? ==>
              && Describes(Maker(hash, PythonStrip(name)), parts.value, Chunks(content, max))
              && Stored(parts.value, Chunks(content, max), dir') && NewParts(dir, dir', parts.value)
  {
    if !SplitAllowed(content, max, name) { return None, dir; }
    MakerSeparate(hash, PythonStrip(name));
    parts, dir' := WriteParts(Maker(hash, PythonStrip(name)), content, dir, max);
  }

  // ---- validating ---------------------------------------------------------------------------

  function Sizes(parts: seq<Listed>): int {
    if parts == [] then 0 else Sizes(parts[..|parts| - 1]) + parts[|parts| - 1].size
  }

  predicate ListedOk(p: Listed, i: nat, urlsOk: (seq<string>, string) -> bool) {
    p.index == i && HexDigest(p.sha) && 0 < p.size <= MAX_OBJECT_BYTES && urlsOk(p.urls, p.sha)
  }

  predicate PartsValid(parts: seq<Listed>, size: int, urlsOk: (seq<string>, string) -> bool) {
    && 1 <= |parts| <= MAX_PARTS && 0 < size <= MAX_OBJECT_BYTES && Sizes(parts) == size
    && forall i | 0 <= i < |parts| :: ListedOk(parts[i], i, urlsOk)
  }

  /** `validate_parts`, whose running total refuses early exactly what the final total would. */
  method ValidateParts(parts: seq<Listed>, size: int, urlsOk: (seq<string>, string) -> bool) returns (ok: bool)
    ensures ok <==> PartsValid(parts, size, urlsOk)
    ensures ok <==>
              && 1 <= |parts| <= 64 && 0 < size <= 32 * 1024 * 1024 * 1024 && Sizes(parts) == size
              && forall i | 0 <= i < |parts| ::
                   && parts[i].index == i && HexDigest(parts[i].sha) && urlsOk(parts[i].urls, parts[i].sha)
                   && 0 < parts[i].size <= 32 * 1024 * 1024 * 1024
  {
    if !(1 <= |parts| <= MAX_PARTS) || !(0 < size <= MAX_OBJECT_BYTES) { return false; }
    var total := 0;
    for i := 0 to |parts|
      invariant total == Sizes(parts[..i]) <= size
      invariant forall j | 0 <= j < i :: ListedOk(parts[j], j, urlsOk)
    {
      if !ListedOk(parts[i], i, urlsOk) { return false; }
      assert parts[..i + 1][..i] == parts[..i];
      total := total + parts[i].size;
      if total > size { SizesGrow(parts, i + 1, urlsOk); return false; }
    }
    assert parts[..|parts|] == parts;
    return total == size;
  }

  lemma {:induction false} SizesGrow(parts: seq<Listed>, k: nat, urlsOk: (seq<string>, string) -> bool)
    requires k <= |parts|
    ensures (forall i | 0 <= i < |parts| :: ListedOk(parts[i], i, urlsOk)) ==> Sizes(parts[..k]) <= Sizes(parts)
    decreases |parts|
  {
    if k == |parts| {
      assert parts[..k] == parts;
    } else {
      var n := |parts| - 1;
      SizesGrow(parts[..n], k, urlsOk);
      assert parts[..n][..k] == parts[..k];
      assert (forall i | 0 <= i < |parts| :: ListedOk(parts[i], i, urlsOk)) ==> ListedOk(parts[n], n, urlsOk);
    }
  }

  /** The rows of a split with their download addresses. */
  predicate Lists(listed: seq<Listed>, parts: seq<Part>, urlsOk: (seq<string>, string) -> bool) {
    && |listed| == |parts|
    && forall i | 0 <= i < |parts| ::
         listed[i].index == parts[i].index && listed[i].sha == parts[i].sha && listed[i].size == parts[i].size
         && urlsOk(listed[i].urls, listed[i].sha)
  }

  lemma {:induction false} SizesOfChunks(listed: seq<Listed>, chunks: seq<Bytes>)
    requires |listed| == |chunks| && forall i | 0 <= i < |chunks| :: listed[i].size == |chunks[i]|
    ensures Sizes(listed) == |Concat(chunks)|
  {
    if chunks == [] {
    } else {
      var n := |chunks| - 1;
      SizesOfChunks(listed[..n], chunks[..n]);
      ConcatTwo(chunks[..n], chunks[n..]);
      assert chunks == chunks[..n] + chunks[n..] && chunks[n..] == [chunks[n]]
             && Concat([chunks[n]]) == chunks[n] + Concat([]);
    }
  }

  /** A split, with valid addresses added, passes validation exactly when the object is at most 64 parts
      of the chosen size. */
  lemma SplitValidIff(hash: Bytes -> string, content: Bytes, max: int, name: string, parts: seq<Part>,
                      listed: seq<Listed>, urlsOk: (seq<string>, string) -> bool)
    requires SplitAllowed(content, max, name) && Describes(Maker(hash, PythonStrip(name)), parts, Chunks(content, max))
    requires Lists(listed, parts, urlsOk) && forall b :: HexDigest(hash(b))
    ensures PartsValid(listed, |content|, urlsOk) <==> |content| <= MAX_PARTS * max
  {
    var chunks := Chunks(content, max);
    ChunksAre(content, max);
    ChunkCount(content, max, MAX_PARTS);
    SizesOfChunks(listed, chunks);
    forall i | 0 <= i < |listed| ensures ListedOk(listed[i], i, urlsOk) {
      assert parts[i] == PartOf(hash, chunks[i], i, PythonStrip(name));
    }
  }

  /** At the largest part size the split of every legal object is a valid locator. */
  lemma LargestPartSuffices(hash: Bytes -> string, content: Bytes, name: string, parts: seq<Part>, listed: seq<Listed>,
                            urlsOk: (seq<string>, string) -> bool)
    requires SplitAllowed(content, MAX_PART_BYTES, name) && (forall b :: HexDigest(hash(b)))
    requires Describes(Maker(hash, PythonStrip(name)), parts, Chunks(content, MAX_PART_BYTES))
             && Lists(listed, parts, urlsOk)
    ensures PartsValid(listed, |content|, urlsOk)
  {
    SplitValidIff(hash, content, MAX_PART_BYTES, name, parts, listed, urlsOk);
  }

  // ---- reassembling -------------------------------------------------------------------------

  predicate PartFine(hash: Bytes -> string, dir: map<string, Bytes>, p: Part, i: nat) {
    && p.index == i && NameFine(p.file) && p.file in dir && 0 < |dir[p.file]| <= MAX_OBJECT_BYTES
    && hash(dir[p.file]) == p.sha && |dir[p.file]| == p.size
  }

  predicate PartsFine(hash: Bytes -> string, dir: map<string, Bytes>, parts: seq<Part>) {
    forall i | 0 <= i < |parts| :: PartFine(hash, dir, parts[i], i)
  }

  function Joined(dir: map<string, Bytes>, parts: seq<Part>): Bytes
    requires forall i | 0 <= i < |parts| :: parts[i].file in dir
  {
    if parts == [] then [] else Joined(dir, parts[..|parts| - 1]) + dir[parts[|parts| - 1].file]
  }

  /** The block loop for one part: everything is appended, or the run stops within the expected size. */
  method AppendBlocks(written: Bytes, source: Bytes, size: int) returns (ok: bool, out: Bytes)
    requires written == [] || |written| <= size
    ensures ok ==> out == written + source
    ensures out <= written + source && (out == [] || |out| <= size)
    ensures !ok ==> |written + source| > size
  {
    out := written;
    var at := 0;
    while at < |source|
      invariant 0 <= at <= |source| && out == written + source[..at]
      invariant out == [] || |out| <= size
    {
      var end := if |source| - at <= BLOCK then |source| else at + BLOCK;
      if |out| + (end - at) > size { return false, out; }
      assert source[..end] == source[..at] + source[at..end];
      out := out + source[at..end];
      at := end;
    }
    assert source[..|source|] == source;
    ok := true;
  }

  /** What a refused run can leave in the output: a beginning of the good parts put together. */
  ghost predicate Beginning(hash: Bytes -> string, dir: map<string, Bytes>, parts: seq<Part>, out: Bytes) {
    exists k :: 0 <= k <= |parts| && PartsFine(hash, dir, parts[..k]) && out <= Joined(dir, parts[..k])
  }

  /** `reassemble_files`: an existing output is refused and left alone; on success the output is the parts
      put together, with the expected size and digest; what a refused run leaves behind is a beginning of
      them and never longer than expected. */
  method ReassembleFiles(hash: Bytes -> string, dir: map<string, Bytes>, output: Option<Bytes>, parts: seq<Part>,
                         sha: string, size: int)
    returns (ok: bool, out: Option<Bytes>)
    ensures ok <==> && output.None? && PartsFine(hash, dir, parts)
                    && |Joined(dir, parts)| == size && hash(Joined(dir, parts)) == sha
    ensures PartsFine(hash, dir, parts) <==>
              forall i | 0 <= i < |parts| ::
                && parts[i].index == i && parts[i].file in dir
                && parts[i].file != "" && '/' !in parts[i].file && '\\' !in parts[i].file
                && 0 < |dir[parts[i].file]| <= 32 * 1024 * 1024 * 1024
                && |dir[parts[i].file]| == parts[i].size && hash(dir[parts[i].file]) == parts[i].sha
    ensures ok ==> out == Some(Joined(dir, parts))
    ensures output.Some? ==> out == output
    ensures !ok && output.None? && out.Some? ==>
              (out.value == [] || |out.value| <= size) && Beginning(hash, dir, parts, out.value)
  {
    if output.Some? { return false, output; }
    var written: Bytes := [];
    for i := 0 to |parts|
      invariant PartsFine(hash, dir, parts[..i]) && written == Joined(dir, parts[..i])
      invariant written == [] || |written| <= size
    {
      assert parts[..i + 1][..i] == parts[..i];
      if !PartFine(hash, dir, parts[i], i) { return false, Some(written); }
      assert PartsFine(hash, dir, parts[..i + 1]);
      var fits;
      fits, written := AppendBlocks(written, dir[parts[i].file], size);
      if !fits {
        JoinedGrows(hash, dir, parts, i + 1);
        assert written <= Joined(dir, parts[..i + 1]);
        return false, Some(written);
      }
    }
    assert parts[..|parts|] == parts;
    if |written| != size || hash(written) != sha { return false, None; }
    return true, Some(written);
  }

  lemma {:induction false} JoinedGrows(hash: Bytes -> string, dir: map<string, Bytes>, parts: seq<Part>, k: nat)
    requires k <= |parts| && PartsFine(hash, dir, parts[..k])
    ensures PartsFine(hash, dir, parts) ==> |Joined(dir, parts[..k])| <= |Joined(dir, parts)|
    decreases |parts|
  {
    if k == |parts| {
      assert parts[..k] == parts;
    } else {
      assert parts[..|parts| - 1][..k] == parts[..k];
      JoinedGrows(hash, dir, parts[..|parts| - 1], k);
    }
  }

  lemma {:induction false} JoinedIsConcat(dir: map<string, Bytes>, parts: seq<Part>, chunks: seq<Bytes>)
    requires Stored(parts, chunks, dir)
    ensures Joined(dir, parts) == Concat(chunks)
  {
    if parts == [] {
    } else {
      var n := |parts| - 1;
      JoinedIsConcat(dir, parts[..n], chunks[..n]);
      ConcatTwo(chunks[..n], chunks[n..]);
      assert chunks == chunks[..n] + chunks[n..] && chunks[n..] == [chunks[n]]
             && Concat([chunks[n]]) == chunks[n] + Concat([]);
    }
  }

  lemma PartNameFine(name: string, index: nat, digest: string)
    requires NameFine(name) && HexDigest(digest)
    ensures NameFine(PartName(name, index, digest))
  {
    DecimalChars(index);
    var p := Padded(index);
    assert forall c | c in digest :: c != '/' && c != '\\';
    assert forall c | c in p :: c != '/' && c != '\\';
    assert forall c | c in ".part" :: c != '/' && c != '\\';
    assert forall c | c in ".sha256-" :: c != '/' && c != '\\';
  }

  lemma {:induction false} DecimalChars(n: nat)
    ensures forall c | c in Decimal(n) :: '0' <= c <= '9'
  {
    if n < 10 {
    } else {
      DecimalChars(n / 10);
    }
  }

  /** Round trip: reassembling the parts of any split gives the original bytes. */
  lemma SplitReassembles(hash: Bytes -> string, content: Bytes, max: int, name: string, parts: seq<Part>,
                         dir: map<string, Bytes>)
    requires SplitAllowed(content, max, name) && (forall b :: HexDigest(hash(b)))
    requires Describes(Maker(hash, PythonStrip(name)), parts, Chunks(content, max))
             && Stored(parts, Chunks(content, max), dir)
    ensures PartsFine(hash, dir, parts) && Joined(dir, parts) == content
  {
    var chunks := Chunks(content, max);
    ChunksAre(content, max);
    JoinedIsConcat(dir, parts, chunks);
    forall i | 0 <= i < |parts| ensures PartFine(hash, dir, parts[i], i) {
      assert parts[i] == PartOf(hash, chunks[i], i, PythonStrip(name));
      PartNameFine(PythonStrip(name), i, hash(chunks[i]));
    }
  }
}
