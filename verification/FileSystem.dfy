/** A POSIX directory tree seen through the calls `publish_verified_file` makes: inodes, directory
    entries, and the directory that the publication path names at the moment. */
module FileSystem {

  newtype byte = x: int | 0 <= x < 256
  type Bytes = seq<byte>
  type Digest = string
  type Ino = nat
  type Dir = nat
  type Name = string

  /** `ctime` advances strictly with every write, chmod, link and unlink of the inode; `mtime` moves
      only when `ctime` does, so it is left out. */
  datatype Inode = Inode(content: Bytes, writable: bool, regular: bool, ctime: nat)

  /** `parent` is the directory the target's parent path resolves to. */
  datatype Fs = Fs(inodes: map<Ino, Inode>, entries: map<(Dir, Name), Ino>, parent: Dir)

  /** Inodes are never freed, and every entry points at one. */
  predicate WellFormed(fs: Fs) {
    forall k :: k in fs.entries ==> fs.entries[k] in fs.inodes
  }

  predicate Refers(fs: Fs, d: Dir, n: Name, i: Ino) {
    (d, n) in fs.entries && fs.entries[(d, n)] == i
  }

  function Touched(node: Inode): Inode {
    node.(ctime := node.ctime + 1)
  }

  function PutInode(fs: Fs, i: Ino, node: Inode): Fs {
    fs.(inodes := fs.inodes[i := node])
  }

  function PutEntry(fs: Fs, d: Dir, n: Name, i: Ino): Fs
    requires i in fs.inodes
  {
    fs.(entries := fs.entries[(d, n) := i], inodes := fs.inodes[i := Touched(fs.inodes[i])])
  }

  function Unlink(fs: Fs, d: Dir, n: Name): Fs
    requires WellFormed(fs)
  {
    if (d, n) !in fs.entries then fs
    else
      var i := fs.entries[(d, n)];
      fs.(entries := fs.entries - {(d, n)}, inodes := fs.inodes[i := Touched(fs.inodes[i])])
  }

  /** Bytes written at an offset; a gap left by a truncation reads as zeros. */
  function WriteAt(content: Bytes, at: nat, block: Bytes): Bytes {
    var base := if |content| < at then content + seq(at - |content|, _ => 0 as byte) else content;
    base[..at] + block + (if at + |block| <= |base| then base[at + |block|..] else [])
  }

  /** The next block of a file read through a descriptor: at most `n` bytes, none at the end. */
  function NextBlock(content: Bytes, pos: nat, n: nat): Bytes {
    if |content| <= pos then [] else if |content| - pos <= n then content[pos..] else content[pos..pos + n]
  }

  /** Reading on from what was read so far yields a longer beginning, or shows that it is everything. */
  lemma ReadsOn(content: Bytes, sofar: Bytes, n: nat)
    requires sofar <= content && n > 0
    ensures sofar + NextBlock(content, |sofar|, n) <= content
    ensures NextBlock(content, |sofar|, n) == [] ==> sofar == content
  {
    assert content == sofar + content[|sofar|..];
  }

  /** What one inode may become while others act: a read-only one keeps its bytes and stays
      read-only, and an unchanged `ctime` means nothing changed. */
  predicate NodeEvolves(a: Inode, b: Inode) {
    && a.regular == b.regular
    && a.ctime <= b.ctime
    && (a.ctime == b.ctime ==> a == b)
    && (!a.writable ==> !b.writable && a.content == b.content)
  }

  ghost predicate Evolves(fs: Fs, fs': Fs) {
    forall i :: i in fs.inodes ==> i in fs'.inodes && NodeEvolves(fs.inodes[i], fs'.inodes[i])
  }

  lemma EvolvesTransitive(a: Fs, b: Fs, c: Fs)
    requires Evolves(a, b) && Evolves(b, c)
    ensures Evolves(a, c)
  {
    forall i | i in a.inodes ensures i in c.inodes && NodeEvolves(a.inodes[i], c.inodes[i]) {
      assert NodeEvolves(a.inodes[i], b.inodes[i]);
      assert NodeEvolves(b.inodes[i], c.inodes[i]);
    }
  }
}
