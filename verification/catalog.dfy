/** The read-only trees of files compiled into the binary (the examples, the
    WASI adapters and the WIT dependency packages), and the text codec the
    generators use to read and write file contents. */
module Catalog {
  import opened Wrappers
  import opened Disk

  /** An entry of an embedded tree: a file with its bytes, or a directory
      with its entries in order. */
  datatype Node = File(name: string, contents: Bytes) | Dir(name: string, children: seq<Node>)

  /** The first entry of `entries` called `n`. */
  function Child(entries: seq<Node>, n: string): (r: Option<Node>)
    ensures r.Some? ==> r.value in entries && r.value.name == n
    ensures r.None? ==> forall e :: e in entries ==> e.name != n
  {
    if entries == [] then None
    else if entries[0].name == n then Some(entries[0])
    else Child(entries[1..], n)
  }

  /** The entry at path `p` below `root`, found one component at a time. */
  function Lookup(root: Node, p: Path): Option<Node>
    decreases |p|
  {
    if p == [] then Some(root)
    else if root.File? then None
    else
      match Child(root.children, p[0])
      case None => None
      case Some(c) => Lookup(c, p[1..])
  }

  /** `Dir::get_dir`: the directory at `p`, if there is one. */
  function GetDir(root: Node, p: Path): (r: Option<Node>)
    ensures r.Some? ==> r.value.Dir? && Lookup(root, p) == r
    ensures r.None? ==> Lookup(root, p).None? || Lookup(root, p).value.File?
  {
    match Lookup(root, p)
    case Some(n) => if n.Dir? then Some(n) else None
    case None => None
  }

  /** `Dir::get_file`: the file at `p`, if there is one. */
  function GetFile(root: Node, p: Path): (r: Option<Node>)
    ensures r.Some? ==> r.value.File? && Lookup(root, p) == r
    ensures r.None? ==> Lookup(root, p).None? || Lookup(root, p).value.Dir?
  {
    match Lookup(root, p)
    case Some(n) => if n.File? then Some(n) else None
    case None => None
  }

  /** Looking up a longer path is looking up its first component and then
      the rest below it. */
  lemma {:induction false} LookupAppend(root: Node, p: Path, q: Path)
    ensures Lookup(root, p + q) ==
      (match Lookup(root, p) case None => None case Some(n) => Lookup(n, q))
    decreases |p|
  {
    if p == [] {
      assert p + q == q;
    } else {
      assert (p + q)[0] == p[0] && (p + q)[1..] == p[1..] + q;
      if root.Dir? {
        match Child(root.children, p[0])
        case None =>
        case Some(c) => LookupAppend(c, p[1..], q);
      }
    }
  }

  /** The largest element of a sequence of naturals, 0 for none. */
  function MaxOf(s: seq<nat>): (r: nat)
    ensures forall i :: 0 <= i < |s| ==> s[i] <= r
  {
    if s == [] then 0
    else var m := MaxOf(s[1..]); if s[0] > m then s[0] else m
  }

  /** The number of directory levels of a tree. */
  function Height(n: Node): (h: nat)
    ensures n.Dir? ==> forall i :: 0 <= i < |n.children| ==> Height(n.children[i]) < h
  {
    match n
    case File(_, _) => 0
    case Dir(_, cs) =>
      var hs := seq(|cs|, i requires 0 <= i < |cs| => Height(cs[i]));
      assert forall i :: 0 <= i < |cs| ==> hs[i] == Height(cs[i]);
      1 + MaxOf(hs)
  }

  /** An entry found at path `p` lies `|p|` levels below the root. */
  lemma {:induction false} LookupHeight(root: Node, p: Path)
    requires Lookup(root, p).Some?
    ensures |p| + Height(Lookup(root, p).value) <= Height(root)
    decreases |p|
  {
    if p != [] {
      var c := Child(root.children, p[0]).value;
      var k :| 0 <= k < |root.children| && root.children[k] == c;
      LookupHeight(c, p[1..]);
    }
  }

  /** No directory holds two entries of the same name, as on a real file
      system. */
  predicate UniqueNames(n: Node)
  {
    n.Dir? ==>
      (forall i, j :: 0 <= i < j < |n.children| ==> n.children[i].name != n.children[j].name) &&
      (forall i :: 0 <= i < |n.children| ==> UniqueNames(n.children[i]))
  }

  /** With unique names, looking up an entry's name finds that entry. */
  lemma {:induction false} ChildUnique(entries: seq<Node>, i: nat)
    requires i < |entries|
    requires forall a, b :: 0 <= a < b < |entries| ==> entries[a].name != entries[b].name
    ensures Child(entries, entries[i].name) == Some(entries[i])
  {
    if i > 0 {
      ChildUnique(entries[1..], i - 1);
    }
  }

  /** Subtrees of a tree with unique names have unique names. */
  lemma {:induction false} LookupUnique(root: Node, p: Path)
    requires UniqueNames(root) && Lookup(root, p).Some?
    ensures UniqueNames(Lookup(root, p).value)
    decreases |p|
  {
    if p != [] {
      var c := Child(root.children, p[0]).value;
      var k :| 0 <= k < |root.children| && root.children[k] == c;
      LookupUnique(c, p[1..]);
    }
  }

  /** Every entry of the tree `n`, which lies at `rel`, with its path, in
      pre-order: a directory before its entries, entries in order (the
      order of a directory walk over sorted entries). */
  function Visit(n: Node, rel: Path): (r: seq<(Path, Node)>)
    ensures |r| >= 1 && r[0] == (rel, n)
    ensures forall k :: 0 <= k < |r| ==> rel <= r[k].0
    decreases n, 1, 0
  {
    [(rel, n)] + (if n.Dir? then VisitFrom(n, 0, rel) else [])
  }

  /** The entries below the directory `n`, at `rel`, from its `i`-th entry
      on. */
  function VisitFrom(n: Node, i: nat, rel: Path): (r: seq<(Path, Node)>)
    requires n.Dir? && i <= |n.children|
    ensures forall k :: 0 <= k < |r| ==> rel <= r[k].0 && |rel| < |r[k].0|
    decreases n, 0, |n.children| - i
  {
    if i == |n.children| then []
    else
      var c := n.children[i];
      Visit(c, rel + [c.name]) + VisitFrom(n, i + 1, rel)
  }

  /** Decoding bytes as UTF-8 text and encoding text back to bytes
      (`String::from_utf8` and `as_bytes`). */
  datatype Codec = Codec(decode: Bytes -> Option<string>, encode: string -> Bytes)

  /** Encoding undoes a successful decoding and decoding undoes encoding,
      as they do for UTF-8. */
  ghost predicate Lawful(codec: Codec)
  {
    (forall b: Bytes :: codec.decode(b).Some? ==> codec.encode(codec.decode(b).value) == b) &&
    (forall t: string :: codec.decode(codec.encode(t)) == Some(t))
  }
}
