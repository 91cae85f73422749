/** The inode table that an image spells out: types and link counts from the inode blocks, entries from the bytes of the
    directories. */
module DiskLinks {
  import opened Layout
  import opened Recovery
  import opened FsImage
  import opened FileSystem
  import opened Dirs
  import opened DirFiles
  import opened DiskInodes
  import Links

  function TypOf(typ: ushort): (t: Links.Typ) {
    if typ == 0 then Links.Free else if typ == T_DIR then Links.Dir else Links.Other(typ == T_DEV)
  }

  /** A directory has all its blocks and a whole number of entries. */
  ghost predicate WholeDir(v: Image, d: Dinode) {
    |d.addrs| == NDIRECT + 1 && (d.typ == T_DIR ==> d.size % DESIZE == 0 && Filled(v, d))
  }

  ghost function NodeOf(v: Image, d: Dinode): (n: Links.Node)
    requires WholeDir(v, d)
  {
    Links.Node(TypOf(d.typ), d.nlink, if d.typ == T_DIR then Entries(Content(v, d)) else [])
  }

  ghost predicate Whole(v: Image, tab: seq<Dinode>) {
    forall i :: 0 <= i < |tab| ==> WholeDir(v, tab[i])
  }

  ghost function Nodes(v: Image, tab: seq<Dinode>): (t: seq<Links.Node>)
    requires Whole(v, tab)
    ensures |t| == |tab| && forall i :: 0 <= i < |tab| ==> t[i] == NodeOf(v, tab[i])
  {
    seq(|tab|, i requires 0 <= i < |tab| => NodeOf(v, tab[i]))
  }

  /** The link counts are the numbers of entries that name the inodes, the directories form a tree, removed directories
      are empty, and free inodes own nothing. */
  ghost predicate Right(v: Image, tab: seq<Dinode>) {
    Whole(v, tab) && FreeBare(tab) && Links.Inv(Nodes(v, tab)) && Links.RemovedEmpty(Nodes(v, tab))
  }

  /** The inode table on disk. */
  ghost function DiskTab(g: Geometry, v: Image): (tab: seq<Dinode>) {
    seq(g.ninodes, i requires 0 <= i => OnDisk(g, v, i))
  }

  /** The same of the disk alone. */
  ghost predicate RightImage(g: Geometry, v: Image) {
    Right(v, DiskTab(g, v))
  }

  lemma SyncedTab(g: Geometry, v: Image, tab: seq<Dinode>)
    requires Synced(g, v, tab, -1) && |tab| == g.ninodes
    ensures DiskTab(g, v) == tab
  {
    hide GetDinode;
  }

  /** An operation on inode `i` changes that node and no other. */
  lemma OneNode(v: Image, tab: seq<Dinode>, v': Image, tab': seq<Dinode>, i: nat)
    requires Whole(v, tab) && OthersSame(v, tab, v', tab', i) && i < |tab| && WholeDir(v', tab'[i])
    ensures Whole(v', tab') && Nodes(v', tab') == Nodes(v, tab)[i := NodeOf(v', tab'[i])]
  {
    hide Content, Filled, SameFile, Entries;
    forall k | 0 <= k < |tab| && k != i ensures WholeDir(v', tab'[k]) && NodeOf(v', tab'[k]) == NodeOf(v, tab[k]) {
      if tab[k].typ == T_DIR {
        SameFileSameContent(v, v', tab[k]);
      }
    }
  }

  /** New fields, but the same blocks and size. */
  lemma MetaNode(v: Image, v': Image, d: Dinode, d': Dinode)
    requires WholeDir(v, d) && d' == d.(major := d'.major, minor := d'.minor, nlink := d'.nlink) && SameFile(v, v', d')
    ensures WholeDir(v', d') && NodeOf(v', d') == NodeOf(v, d).(nlink := d'.nlink)
  {
    if d.typ == T_DIR {
      assert Filled(v, d');
      SameFileSameContent(v, v', d');
      assert Content(v, d') == Content(v, d);
    }
  }
}
