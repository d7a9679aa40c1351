/** The bounded and fingerprinting reads of scripts/c9_stable_snapshot.py under interference.  The
    file's whole history is given, one `Moment` per instant, and the reader's system calls fall on
    arbitrary, non-decreasing instants of it: whatever others write happens in between. */
module StableRead {
  import opened FileSystem

  const BLOCK: nat := 1024 * 1024

  /** The opened inode at one instant, and what the path names at that instant (`namedIno == -1`
      when it names nothing). */
  datatype Moment = Moment(file: Inode, namedIno: int, named: Inode)

  type History = seq<Moment>

  /** Every change of the opened inode strictly advances its `ctime`. */
  ghost predicate Chronicle(h: History) {
    forall i, j :: 0 <= i <= j < |h| ==>
      && h[i].file.ctime <= h[j].file.ctime
      && (h[i].file.ctime == h[j].file.ctime ==> h[i].file == h[j].file)
  }

  /** The instants of the successive system calls. */
  ghost predicate Clock(h: History, clock: seq<nat>) {
    && (forall a :: 0 <= a < |clock| ==> clock[a] < |h|)
    && (forall a, b :: 0 <= a <= b < |clock| ==> clock[a] <= clock[b])
  }

  /** The file did not change from instant `i` to instant `j`. */
  ghost predicate Steady(h: History, i: nat, j: nat)
    requires j < |h|
  {
    forall t :: i <= t <= j ==> h[t].file == h[j].file
  }

  lemma SteadyBetween(h: History, i: nat, j: nat)
    requires Chronicle(h) && i <= j < |h| && h[i].file.ctime == h[j].file.ctime
    ensures Steady(h, i, j)
  {
    forall t | i <= t <= j ensures h[t].file == h[j].file {
      assert h[i].file.ctime <= h[t].file.ctime <= h[j].file.ctime;
    }
  }

  /** Nobody touches the file or its name, a non-empty regular file, while the reader is at it. */
  ghost predicate Undisturbed(h: History, clock: seq<nat>, ino: Ino) {
    && Clock(h, clock) && |clock| > 0
    && h[clock[0]].file.regular && h[clock[0]].file.content != []
    && forall t :: clock[0] <= t <= clock[|clock| - 1] ==>
         h[t].file == h[clock[0]].file && h[t].namedIno == ino && h[t].named == h[clock[0]].file
  }

  datatype Outcome<T> = Ok(value: T) | FileInvalid | FileChanged | Unfinished

  /** At most `n` bytes from offset `pos`, none at the end of the file; `short` is how many the
      system happens to deliver. */
  function ReadBlock(content: Bytes, pos: nat, n: nat, short: nat): (block: Bytes)
    ensures pos < |content| && n > 0 ==> 0 < |block| <= n && pos + |block| <= |content|
    ensures pos < |content| && n > 0 ==> block == content[pos..pos + |block|]
    ensures pos >= |content| ==> block == []
  {
    NextBlock(content, pos, if 0 < short < n then short else n)
  }

  /** The checks `_open_stable_regular` makes with the first `fstat` and the first named `stat`. */
  predicate OpensRegular(before: Inode, ino: Ino, m: Moment) {
    before.regular && m.namedIno == ino && m.named.regular && |before.content| > 0
  }

  /** The checks `_require_same_file` makes with the last `fstat` and the last named `stat`. */
  predicate SameFile(before: Inode, after: Inode, ino: Ino, m: Moment) {
    && after.regular && m.namedIno == ino && m.named.regular
    && |before.content| == |after.content| && before.ctime == after.ctime
    && |after.content| == |m.named.content| && after.ctime == m.named.ctime
  }

  /** The name shows the opened file, of this size and `ctime`, as a regular one. */
  predicate Shows(m: Moment, ino: Ino, file: Inode) {
    m.namedIno == ino && m.named.regular && |m.named.content| == |file.content| && m.named.ctime == file.ctime
  }

  /** The first two calls found a regular file, and the name naming it. */
  ghost predicate Opened(h: History, clock: seq<nat>, ino: Ino)
    requires Clock(h, clock) && |clock| > 1
  {
    h[clock[0]].file.regular && h[clock[1]].namedIno == ino && h[clock[1]].named.regular
  }

  /** `_fingerprint_fd`: read block by block to the end.  If the file stood still during the reads,
      the digest and size are those of its content; `next` is the first call not yet made. */
  method FingerprintFd(hash: Bytes -> Digest, h: History, clock: seq<nat>, first: nat, short: seq<nat>)
    returns (done: bool, digest: Digest, total: nat, next: nat)
    requires Clock(h, clock) && first < |clock|
    ensures first <= next <= |clock|
    ensures done ==> first < next
    ensures done && Steady(h, clock[first], clock[next - 1]) ==>
              && digest == hash(h[clock[first]].file.content) && total == |h[clock[first]].file.content|
              && next - first <= total + 1
    ensures !done && Steady(h, clock[first], clock[|clock| - 1]) ==> |clock| - first <= |h[clock[first]].file.content|
  {
    var acc: Bytes := [];
    next := first;
    total := 0;
    while next < |clock|
      invariant first <= next <= |clock|
      invariant total == |acc|
      invariant first < next && Steady(h, clock[first], clock[next - 1]) ==> acc <= h[clock[first]].file.content
      invariant first < next && Steady(h, clock[first], clock[next - 1]) ==> next - first <= total
      invariant first == next ==> acc == []
    {
      ghost var t, prev := clock[next], acc;
      var block := ReadBlock(h[clock[next]].file.content, total, BLOCK, if next < |short| then short[next] else 0);
      next := next + 1;
      assert Steady(h, clock[first], t) ==> h[clock[first]].file == h[t].file;
      assert first < next - 1 && Steady(h, clock[first], t) ==> Steady(h, clock[first], clock[next - 2]);
      assert Steady(h, clock[first], t) ==> acc <= h[t].file.content;
      if |block| == 0 {
        done, digest := true, hash(acc);
        assert Steady(h, clock[first], t) ==> acc == h[t].file.content;
        return;
      }
      total := total + |block|;
      acc := acc + block;
    }
    done, digest := false, "";
  }

  /** `stable_file_fingerprint`: whenever it succeeds it has seen the one content the file held for the
      whole read, from the first `fstat` to the last named `stat`; and on a file that is left alone it
      succeeds once it has had enough calls. */
  method StableFileFingerprint(hash: Bytes -> Digest, h: History, clock: seq<nat>, ino: Ino, short: seq<nat>)
    returns (r: Outcome<(Digest, nat)>, last: nat)
    requires Chronicle(h) && Clock(h, clock)
    ensures r.Ok? ==> 0 < last < |clock|
    ensures r.Ok? ==>
              && Steady(h, clock[0], clock[last - 1])
              && r.value == (hash(h[clock[0]].file.content), |h[clock[0]].file.content|)
              && h[clock[0]].file.content != []
              && Opened(h, clock, ino) && Shows(h[clock[last]], ino, h[clock[0]].file)
    ensures Undisturbed(h, clock, ino) && |clock| >= |h[clock[0]].file.content| + 5 ==> r.Ok?
  {
    last := 0;
    if |clock| < 2 { return Unfinished, 0; }
    var before := h[clock[0]].file;
    if !OpensRegular(before, ino, h[clock[1]]) { return FileInvalid, 1; }
    if |clock| == 2 { return Unfinished, 2; }
    var done, digest, total, next := FingerprintFd(hash, h, clock, 2, short);
    assert Undisturbed(h, clock, ino) ==> Steady(h, clock[2], clock[|clock| - 1]) && h[clock[2]].file == before;
    assert Undisturbed(h, clock, ino) && done ==> Steady(h, clock[2], clock[next - 1]);
    if !done || next + 1 >= |clock| { return Unfinished, |clock|; }
    var after := h[clock[next]].file;
    last := next + 1;
    if !SameFile(before, after, ino, h[clock[last]]) { return FileChanged, last; }
    SteadyBetween(h, clock[0], clock[next]);
    assert Steady(h, clock[2], clock[next - 1]);
    assert h[clock[2]].file == h[clock[0]].file;
    if total != |before.content| { return FileChanged, last; }
    r := Ok((digest, total));
  }

  /** `stable_file_bytes`: the same with a size limit, keeping the bytes. */
  method StableFileBytes(h: History, clock: seq<nat>, ino: Ino, maxBytes: nat, short: seq<nat>)
    returns (r: Outcome<Bytes>, last: nat)
    requires Chronicle(h) && Clock(h, clock)
    ensures r.Ok? ==> 0 < last < |clock|
    ensures r.Ok? ==>
              && Steady(h, clock[0], clock[last - 1])
              && r.value == h[clock[0]].file.content
              && 0 < |r.value| <= maxBytes
              && Opened(h, clock, ino) && Shows(h[clock[last]], ino, h[clock[0]].file)
    ensures Undisturbed(h, clock, ino) && |clock| >= |h[clock[0]].file.content| + 5 ==>
              (r.Ok? <==> |h[clock[0]].file.content| <= maxBytes)
  {
    last := 0;
    if |clock| < 2 { return Unfinished, 0; }
    var before := h[clock[0]].file;
    if !OpensRegular(before, ino, h[clock[1]]) { return FileInvalid, 1; }
    if |before.content| > maxBytes { return FileInvalid, 1; }
    var chunks: Bytes := [];
    var next := 2;
    var ended := false;
    while !ended && next < |clock|
      invariant 2 <= next <= |clock|
      invariant |chunks| <= maxBytes
      invariant 2 < next && Steady(h, clock[0], clock[next - 1]) ==> chunks <= before.content
      invariant Undisturbed(h, clock, ino) ==>
                  next - 2 <= |chunks| + (if ended then 1 else 0) && chunks <= before.content
      invariant 2 == next ==> chunks == [] && !ended
      invariant ended && Steady(h, clock[0], clock[next - 1]) ==> chunks == before.content
      decreases |clock| - next, !ended
    {
      ghost var t := clock[next];
      var limit := if BLOCK < maxBytes + 1 - |chunks| then BLOCK else maxBytes + 1 - |chunks|;
      var block := ReadBlock(h[clock[next]].file.content, |chunks|, limit, if next < |short| then short[next] else 0);
      next := next + 1;
      assert Steady(h, clock[0], t) ==> h[clock[0]].file == h[t].file;
      assert 2 < next - 1 && Steady(h, clock[0], t) ==> Steady(h, clock[0], clock[next - 2]);
      if |block| == 0 {
        ended := true;
      } else {
        chunks := chunks + block;
        if |chunks| > maxBytes { return FileInvalid, next - 1; }
      }
    }
    if !ended || next + 1 >= |clock| { return Unfinished, |clock|; }
    var after := h[clock[next]].file;
    last := next + 1;
    if !SameFile(before, after, ino, h[clock[last]]) { return FileChanged, last; }
    SteadyBetween(h, clock[0], clock[next]);
    if |chunks| != |before.content| { return FileChanged, last; }
    r := Ok(chunks);
  }

  /** `verified_open`: a fingerprint before the caller's own reads and one after, both against the same
      first `fstat`.  The caller's reads are the `calls` calls from `start` on; if leaving the context
      does not raise, the file held one content with the expected digest throughout, so every one of
      those reads saw it. */
  method VerifiedOpen(hash: Bytes -> Digest, h: History, clock: seq<nat>, ino: Ino, digest: Digest, size: nat,
                      calls: nat, short: seq<nat>)
    returns (r: Outcome<nat>, start: nat, last: nat)
    requires Chronicle(h) && Clock(h, clock)
    ensures r.Ok? ==>
              && 0 < start && start + calls < last < |clock|
              && Steady(h, clock[0], clock[last - 1])
              && digest == hash(h[clock[0]].file.content) && r.value == size == |h[clock[0]].file.content| && size > 0
              && (forall i | start <= i < start + calls :: h[clock[i]].file.content == h[clock[0]].file.content)
              && Opened(h, clock, ino) && Shows(h[clock[last]], ino, h[clock[0]].file)
  {
    start, last := 0, 0;
    if |clock| < 3 { return Unfinished, 0, 0; }
    var before := h[clock[0]].file;
    if !OpensRegular(before, ino, h[clock[1]]) { return FileInvalid, 0, 0; }
    var done, d, total, next := FingerprintFd(hash, h, clock, 2, short);
    if !done || next + 1 >= |clock| { return Unfinished, 0, 0; }
    if !SameFile(before, h[clock[next]].file, ino, h[clock[next + 1]]) { return FileChanged, 0, 0; }
    if d != digest || total != size { return FileInvalid, 0, 0; }
    SteadyBetween(h, clock[0], clock[next]);
    assert Steady(h, clock[2], clock[next - 1]);
    assert h[clock[2]].file == h[clock[0]].file;
    start := next + 2;
    if start + calls >= |clock| { return Unfinished, start, 0; }
    var again, d', total', end := FingerprintFd(hash, h, clock, start + calls, short);
    if !again || end + 1 >= |clock| { return Unfinished, start, 0; }
    last := end + 1;
    if !SameFile(before, h[clock[end]].file, ino, h[clock[last]]) { return FileChanged, start, last; }
    if d' != digest || total' != size { return FileInvalid, start, last; }
    SteadyBetween(h, clock[0], clock[end]);
    assert forall i | start <= i < start + calls :: clock[0] <= clock[i] <= clock[end];
    r := Ok(size);
  }
}
