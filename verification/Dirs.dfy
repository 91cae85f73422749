/** Directories and path names of fs.c. */
module Dirs {
  import opened Bytes
  import opened FileBytes

  const DIRSIZ: nat := 14

  /** Bytes of an entry: a 16-bit inode number and the name field. */
  const DESIZE: nat := 16

  /** A C string, without its terminating 0. */
  type Name = seq<byte>

  ghost predicate NoNul(s: seq<byte>) {
    forall i :: 0 <= i < |s| ==> s[i] != 0
  }

  /** A directory entry; inode number 0 means free. The name is what stands in the field before the first 0. */
  datatype Ent = Ent(inum: int, name: Name)

  function Trunc(name: Name): (r: Name)
    ensures |r| <= DIRSIZ
  {
    if |name| > DIRSIZ then name[..DIRSIZ] else name
  }

  // ---- a directory as a finite map --------------------------------------------------------------------------

  /** Index of the first entry in use with that name, or the number of entries. */
  function Find(ents: seq<Ent>, name: Name): (k: nat)
    ensures k <= |ents|
    ensures k < |ents| ==> ents[k].inum != 0 && ents[k].name == name
    ensures forall i :: 0 <= i < k ==> ents[i].inum == 0 || ents[i].name != name
  {
    if ents == [] then 0
    else if ents[0].inum != 0 && ents[0].name == name then 0
    else 1 + Find(ents[1..], name)
  }

  /** What the directory maps a name to; 0 if nothing. */
  function Get(ents: seq<Ent>, name: Name): (inum: int) {
    if Find(ents, name) < |ents| then ents[Find(ents, name)].inum else 0
  }

  function FirstFree(ents: seq<Ent>): (k: nat)
    ensures k <= |ents| && (k < |ents| ==> ents[k].inum == 0)
    ensures forall i :: 0 <= i < k ==> ents[i].inum != 0
  {
    if ents == [] || ents[0].inum == 0 then 0 else 1 + FirstFree(ents[1..])
  }

  /** `ents` with entry `k`, perhaps a new one at the end, set to `e`. */
  function Put(ents: seq<Ent>, k: nat, e: Ent): (r: seq<Ent>)
    requires k <= |ents|
  {
    if k < |ents| then ents[k := e] else ents + [e]
  }

  function Add(ents: seq<Ent>, name: Name, inum: int): (r: seq<Ent>) {
    Put(ents, FirstFree(ents), Ent(inum, name))
  }

  /** No name is in use twice. */
  ghost predicate NoDup(ents: seq<Ent>) {
    forall i, j :: 0 <= i < j < |ents| && ents[i].inum != 0 && ents[j].inum != 0 ==> ents[i].name != ents[j].name
  }

  lemma GetIs(ents: seq<Ent>, name: Name, k: nat)
    requires NoDup(ents) && k < |ents| && ents[k].inum != 0 && ents[k].name == name
    ensures Find(ents, name) == k && Get(ents, name) == ents[k].inum
  {
  }

  /** dirlink adds one pair to the map. */
  lemma AddGets(ents: seq<Ent>, name: Name, inum: int, m: Name)
    requires NoDup(ents) && Get(ents, name) == 0 && inum != 0
    ensures NoDup(Add(ents, name, inum))
    ensures Get(Add(ents, name, inum), m) == if m == name then inum else Get(ents, m)
  {
    var r, k := Add(ents, name, inum), FirstFree(ents);
    assert NoDup(r);
    if m == name {
      GetIs(r, m, k);
    } else if Get(ents, m) != 0 {
      GetIs(r, m, Find(ents, m));
    }
  }

  /** Clearing an entry removes one pair. */
  lemma ClearGets(ents: seq<Ent>, k: nat, m: Name)
    requires NoDup(ents) && k < |ents| && ents[k].inum != 0
    ensures NoDup(ents[k := Ent(0, [])])
    ensures Get(ents[k := Ent(0, [])], m) == if m == ents[k].name then 0 else Get(ents, m)
  {
    var r := ents[k := Ent(0, [])];
    assert NoDup(r);
    if m == ents[k].name {
      GetIs(ents, m, k);
    } else if Get(ents, m) != 0 {
      GetIs(r, m, Find(ents, m));
    }
  }

  // ---- the bytes of a directory -----------------------------------------------------------------------------

  /** What strncpy puts into the name field: the name cut to the field or padded with zeros. */
  function Field(name: Name): (f: seq<byte>)
    ensures |f| == DIRSIZ
  {
    Trunc(name) + seq(DIRSIZ - |Trunc(name)|, _ => 0)
  }

  /** The name in a field: up to the first 0. */
  function Cut(f: seq<byte>): (r: Name)
    ensures |r| <= |f| && r == f[..|r|] && NoNul(r) && (|r| < |f| ==> f[|r|] == 0)
  {
    if f == [] || f[0] == 0 then [] else [f[0]] + Cut(f[1..])
  }

  lemma {:induction false} CutIs(f: seq<byte>, n: nat)
    requires n <= |f| && NoNul(f[..n]) && (n < |f| ==> f[n] == 0)
    ensures Cut(f) == f[..n]
  {
    if n > 0 {
      assert f[0] == f[..n][0] && f[1..][..n - 1] == f[..n][1..];
      CutIs(f[1..], n - 1);
      assert f[..n] == [f[0]] + f[1..][..n - 1];
    }
  }

  lemma CutField(name: Name)
    requires NoNul(name)
    ensures Cut(Field(name)) == Trunc(name)
  {
    CutIs(Field(name), |Trunc(name)|);
  }

  function Encode(e: Ent): (b: seq<byte>)
    requires 0 <= e.inum < 0x10000
    ensures |b| == DESIZE
  {
    [e.inum % 256, e.inum / 256] + Field(e.name)
  }

  function Decode(b: seq<byte>): (e: Ent)
    requires |b| == DESIZE
  {
    var lo: int, hi: int := b[0], b[1];
    Ent(lo + 256 * hi, Cut(b[2..]))
  }

  lemma DecodeEncode(e: Ent)
    requires 0 <= e.inum < 0x10000 && NoNul(e.name) && |e.name| <= DIRSIZ
    ensures Decode(Encode(e)) == e
  {
    assert Encode(e)[2..] == Field(e.name);
    CutField(e.name);
  }

  /** The directory that a file's bytes spell out. */
  function Entries(bytes: seq<byte>): (ents: seq<Ent>)
    requires |bytes| % DESIZE == 0
    ensures |ents| == |bytes| / DESIZE
  {
    seq(|bytes| / DESIZE, k requires 0 <= k < |bytes| / DESIZE => Decode(bytes[DESIZE * k..DESIZE * k + DESIZE]))
  }

  /** struct dirent in bytes: a 16-bit inode number and a name of up to 14 bytes that ends at the first 0. */
  lemma EntryLayout(bytes: seq<byte>, k: nat)
    requires |bytes| % DESIZE == 0 && k < |bytes| / DESIZE
    ensures var e, o := Entries(bytes)[k], 16 * k;
            && o + 16 <= |bytes| && (var lo: int, hi: int := bytes[o], bytes[o + 1]; e.inum == lo + 256 * hi)
            && |e.name| <= 14 && (forall i :: 0 <= i < |e.name| ==> e.name[i] == bytes[o + 2 + i] != 0)
            && (|e.name| < 14 ==> bytes[o + 2 + |e.name|] == 0)
  {
    hide Cut;
    var piece := bytes[16 * k..16 * k + 16];
    assert forall i :: 0 <= i < 16 ==> piece[i] == bytes[16 * k + i];
    var name := Cut(piece[2..]);
    assert forall i :: 0 <= i < 14 ==> piece[2..][i] == bytes[16 * k + 2 + i];
  }

  /** The writei of dirlink and unlink: overwriting or appending 16 bytes changes or appends one entry. */
  lemma {:induction false} WriteEntry(bytes: seq<byte>, k: nat, e: Ent)
    requires |bytes| % DESIZE == 0 && k <= |bytes| / DESIZE
    requires 0 <= e.inum < 0x10000 && NoNul(e.name) && |e.name| <= DIRSIZ
    ensures var b := Splice(bytes, DESIZE * k, Encode(e));
            |b| % DESIZE == 0 && Entries(b) == Put(Entries(bytes), k, e)
  {
    hide Decode, Encode, Splice;
    var b := Splice(bytes, DESIZE * k, Encode(e));
    SpliceSize(bytes, k, Encode(e));
    DecodeEncode(e);
    forall j | 0 <= j < |b| / DESIZE ensures Entries(b)[j] == Put(Entries(bytes), k, e)[j] {
      SplicePiece(bytes, k, Encode(e), j);
    }
  }

  lemma SpliceSize(bytes: seq<byte>, k: nat, piece: seq<byte>)
    requires |bytes| % DESIZE == 0 && k <= |bytes| / DESIZE && |piece| == DESIZE
    ensures var b, n := Splice(bytes, DESIZE * k, piece), |bytes| / DESIZE;
            |b| % DESIZE == 0 && |b| / DESIZE == if k < n then n else n + 1
  {
    var n := |bytes| / DESIZE;
    assert |bytes| == DESIZE * n;
    assert |Splice(bytes, DESIZE * k, piece)| == DESIZE * (if k < n then n else n + 1);
  }

  lemma SplicePiece(bytes: seq<byte>, k: nat, piece: seq<byte>, j: nat)
    requires |bytes| % DESIZE == 0 && k <= |bytes| / DESIZE && |piece| == DESIZE
    requires j < |bytes| / DESIZE || j == k
    ensures var b := Splice(bytes, DESIZE * k, piece);
            && DESIZE * j + DESIZE <= |b|
            && b[DESIZE * j..DESIZE * j + DESIZE] == if j == k then piece else bytes[DESIZE * j..DESIZE * j + DESIZE]
  {
    var b := Splice(bytes, DESIZE * k, piece);
    if j < k {
      assert DESIZE * j + DESIZE <= DESIZE * k;
    } else if j > k {
      assert DESIZE * k + DESIZE <= DESIZE * j;
    }
  }

  /** Byte `i` of a C string or field. */
  function CharAt(s: seq<byte>, i: nat): (c: byte) {
    if i < |s| then s[i] else 0
  }

  lemma Differ(s: Name, t: seq<byte>, i: nat)
    requires NoNul(s) && |t| == DIRSIZ && i < DIRSIZ && i <= |s| && s[..i] == t[..i] && CharAt(s, i) != CharAt(t, i)
    ensures Trunc(s) != Cut(t)
  {
    var u, v := Trunc(s), Cut(t);
    forall j | 0 <= j < i ensures t[j] != 0 {
      assert t[j] == t[..i][j] == s[..i][j];
    }
    assert |v| >= i;
    if |v| > i && |u| > i {
      assert u[i] == s[i] && v[i] == t[i];
    }
  }

  /** namecmp, that is strncmp over 14 bytes, tells names apart exactly by their first 14 bytes. */
  method Namecmp(s: Name, t: seq<byte>) returns (r: int)
    requires NoNul(s) && |t| == DIRSIZ
    ensures r == 0 <==> Trunc(s) == Cut(t)
  {
    var i := 0;
    while i < DIRSIZ && CharAt(s, i) != 0 && CharAt(s, i) == CharAt(t, i)
      invariant 0 <= i <= DIRSIZ && i <= |s| && s[..i] == t[..i]
      decreases DIRSIZ - i
    {
      i := i + 1;
    }
    assert NoNul(s[..i]);
    if i == DIRSIZ {
      CutIs(t, i);
      return 0;
    }
    var c: int, d: int := CharAt(s, i), CharAt(t, i);
    if c == d {
      CutIs(t, i);
    } else {
      Differ(s, t, i);
    }
    return c - d;
  }
}
