/** Mantaray manifests as decoded tries: looking one path up, listing them all,
    and the agreement of the two. A fork's reference is identified with the node
    it refers to, and forks are kept in key order as the decoder's map keeps them. */
module Manifest {
  import opened Arith

  type Path = seq<byte>

  type Reference = seq<byte>

  const SLASH: byte := 47

  datatype Node = Node(entry: Option<Reference>, forks: seq<Fork>)

  /** `contentType` and `indexDocument` are the metadata the lookup reads. */
  datatype Fork = Fork(key: byte, prefix: Path, contentType: Option<string>, indexDocument: Option<Path>, child: Node)

  /** What the decoder enforces: every prefix has a byte, and its map keeps one fork
      for each key, in order. It does not compare the key with the prefix. */
  ghost predicate Decoded(n: Node) {
    && (forall i :: 0 <= i < |n.forks| ==> n.forks[i].prefix != [] && Decoded(n.forks[i].child))
    && (forall i, j :: 0 <= i < j < |n.forks| ==> n.forks[i].key < n.forks[j].key)
  }

  // ---- Looking up ----------------------------------------------------------

  datatype LookupError = NoEntry | NoFork | PrefixMismatch

  type Found = Result<(Reference, Option<string>), LookupError>

  function ForkFor(forks: seq<Fork>, b: byte): Option<Fork> {
    if forks == [] then None
    else if forks[0].key == b then Some(forks[0])
    else ForkFor(forks[1..], b)
  }

  lemma {:induction false} ForkForIsMember(forks: seq<Fork>, b: byte)
    ensures ForkFor(forks, b).Some? ==> ForkFor(forks, b).value in forks && ForkFor(forks, b).value.key == b
    ensures ForkFor(forks, b).None? <==> forall f :: f in forks ==> f.key != b
  {
    if forks != [] {
      ForkForIsMember(forks[1..], b);
      assert forks == [forks[0]] + forks[1..];
    }
  }

  predicate NamesIndex(f: Fork) { f.indexDocument.Some? && f.indexDocument.value != [] }

  /** The metadata of a website's index document: the `/` fork's first, then any. */
  function IndexDocument(n: Node): Option<Path> {
    var slash := ForkFor(n.forks, SLASH);
    if slash.Some? && NamesIndex(slash.value)
    then slash.value.indexDocument
    else FirstIndex(n.forks)
  }

  function FirstIndex(forks: seq<Fork>): Option<Path> {
    if forks == [] then None
    else if NamesIndex(forks[0]) then forks[0].indexDocument
    else FirstIndex(forks[1..])
  }

  lemma {:induction false} FirstIndexFound(forks: seq<Fork>)
    ensures FirstIndex(forks).Some? <==> exists f :: f in forks && NamesIndex(f)
    ensures FirstIndex(forks).Some? ==> exists i :: NamedFirst(forks, i) && forks[i].indexDocument == FirstIndex(forks)
  {
    if forks != [] {
      FirstIndexFound(forks[1..]);
      assert forks == [forks[0]] + forks[1..];
      if NamesIndex(forks[0]) {
        assert NamedFirst(forks, 0);
      } else if FirstIndex(forks).Some? {
        var i :| NamedFirst(forks[1..], i) && forks[1..][i].indexDocument == FirstIndex(forks[1..]);
        assert NamedFirst(forks, i + 1);
      }
    }
  }

  /** The first fork, in key order, to name an index document. */
  predicate NamedFirst(forks: seq<Fork>, i: int) {
    0 <= i < |forks| && NamesIndex(forks[i]) && forall j :: 0 <= j < i ==> !NamesIndex(forks[j])
  }

  /** A node has an index document exactly when some fork names a non-empty one,
      it is the `/` fork's if that names one, and else the first named in key order. */
  lemma IndexDocumentFound(n: Node)
    ensures IndexDocument(n).Some? <==> exists f :: f in n.forks && NamesIndex(f)
    ensures IndexDocument(n).Some?
            && !(ForkFor(n.forks, SLASH).Some? && NamesIndex(ForkFor(n.forks, SLASH).value)) ==>
              exists i :: NamedFirst(n.forks, i) && n.forks[i].indexDocument == IndexDocument(n)
    ensures ForkFor(n.forks, SLASH).Some? && NamesIndex(ForkFor(n.forks, SLASH).value) ==>
              IndexDocument(n) == ForkFor(n.forks, SLASH).value.indexDocument
  {
    FirstIndexFound(n.forks);
    ForkForIsMember(n.forks, SLASH);
  }

  function Later(a: Option<string>, b: Option<string>): Option<string> { if b.Some? then b else a }

  /** Follow forks until the path is used up, remembering the last content type seen. */
  function Seek(n: Node, p: Path, ct: Option<string>): Result<(Node, Option<string>), LookupError>
    decreases |p|
  {
    if p == [] then Ok((n, ct)) else
      match ForkFor(n.forks, p[0])
      case None => Err(NoFork)
      case Some(f) =>
        if f.prefix == [] || !(f.prefix <= p) then Err(PrefixMismatch)
        else Seek(f.child, p[|f.prefix|..], Later(ct, f.contentType))
  }

  /** What remains of a lookup at a node, with the one redirect still to use or used. */
  function Resume(n: Node, p: Path, ct: Option<string>, redirected: bool): Found
    decreases !redirected
  {
    match Seek(n, p, ct)
    case Err(e) => Err(e)
    case Ok((m, ct2)) =>
      if m.entry.Some? then Ok((m.entry.value, ct2))
      else if !redirected && IndexDocument(m).Some? then Resume(m, IndexDocument(m).value, ct2, true)
      else Err(NoEntry)
  }

  /** The lookup loop. Every fork consumes at least a byte and the redirect
      happens at most once, which is why it ends. */
  method Lookup(root: Node, path: Path) returns (r: Found)
    requires Decoded(root)
    ensures r == Resume(root, path, None, false)
  {
    var current, remaining := root, path;
    var contentType: Option<string> := None;
    var redirected := false;
    while true
      invariant Decoded(current)
      invariant Resume(root, path, None, false) == Resume(current, remaining, contentType, redirected)
      decreases !redirected, |remaining|
    {
      if remaining == [] {
        if current.entry.Some? {
          return Ok((current.entry.value, contentType));
        }
        var index := IndexDocument(current);
        if !redirected && index.Some? {
          redirected, remaining := true, index.value;
          continue;
        }
        return Err(NoEntry);
      }
      ForkForIsMember(current.forks, remaining[0]);
      var fork := ForkFor(current.forks, remaining[0]);
      if fork.None? {
        return Err(NoFork);
      }
      if !(fork.value.prefix <= remaining) {
        return Err(PrefixMismatch);
      }
      assert fork.value in current.forks;
      contentType := Later(contentType, fork.value.contentType);
      remaining := remaining[|fork.value.prefix|..];
      current := fork.value.child;
    }
  }

  // ---- Listing -------------------------------------------------------------

  datatype Entry = Entry(path: Path, reference: Reference)

  function Own(n: Node, path: Path): seq<Entry> {
    if n.entry.Some? then [Entry(path, n.entry.value)] else []
  }

  function Listing(n: Node, path: Path): seq<Entry>
    decreases n, |n.forks| + 1
  {
    Own(n, path) + ForksListing(n, 0, path)
  }

  function ForksListing(n: Node, i: nat, path: Path): seq<Entry>
    requires i <= |n.forks|
    decreases n, |n.forks| - i
  {
    if i == |n.forks| then [] else
      Listing(n.forks[i].child, path + n.forks[i].prefix) + ForksListing(n, i + 1, path)
  }

  /** The recursive walk, accumulating into a vector. */
  method Walk(n: Node, path: Path) returns (out: seq<Entry>)
    ensures out == Listing(n, path)
    decreases n
  {
    out := Own(n, path);
    var i := 0;
    while i < |n.forks|
      invariant i <= |n.forks|
      invariant out + ForksListing(n, i, path) == Listing(n, path)
    {
      var rest := Walk(n.forks[i].child, path + n.forks[i].prefix);
      out := out + rest;
      i := i + 1;
    }
  }

  // ---- Agreement -----------------------------------------------------------

  /** The reference stored at a path, following forks only. */
  function EntryAt(n: Node, p: Path): Option<Reference> {
    match Seek(n, p, None)
    case Ok((m, _)) => m.entry
    case Err(_) => None
  }

  /** The content type carried along does not steer the walk. */
  lemma {:induction false} SeekIgnoresType(n: Node, p: Path, a: Option<string>, b: Option<string>)
    ensures Seek(n, p, a).Ok? == Seek(n, p, b).Ok?
    ensures Seek(n, p, a).Ok? ==> Seek(n, p, a).value.0 == Seek(n, p, b).value.0
    decreases |p|
  {
    if p != [] {
      match ForkFor(n.forks, p[0])
      case None =>
      case Some(f) =>
        if f.prefix != [] && f.prefix <= p {
          SeekIgnoresType(f.child, p[|f.prefix|..], Later(a, f.contentType), Later(b, f.contentType));
        }
    }
  }

  /** The fork found for a byte is the one filed under it. */
  lemma ForkIndex(n: Node, b: byte, i: nat)
    requires Decoded(n) && i < |n.forks| && n.forks[i].key == b
    ensures ForkFor(n.forks, b) == Some(n.forks[i])
  {
    ForkForIsMember(n.forks, b);
    var f := ForkFor(n.forks, b).value;
    var j :| 0 <= j < |n.forks| && n.forks[j] == f;
  }

  /** One step of the walk, at a fork filed under its first byte. */
  lemma EntryThroughFork(n: Node, i: nat, p: Path)
    requires Decoded(n) && i < |n.forks| && n.forks[i].prefix <= p && n.forks[i].prefix[0] == n.forks[i].key
    ensures EntryAt(n, p) == EntryAt(n.forks[i].child, p[|n.forks[i].prefix|..])
  {
    var f := n.forks[i];
    assert p[0] == f.prefix[0];
    ForkIndex(n, p[0], i);
    SeekIgnoresType(f.child, p[|f.prefix|..], None, Later(None, f.contentType));
  }

  // ---- Where listed entries come from --------------------------------------

  lemma {:induction false} ForkListed(n: Node, i: nat, j: nat, path: Path, x: Entry)
    requires i <= j < |n.forks| && x in Listing(n.forks[j].child, path + n.forks[j].prefix)
    ensures x in ForksListing(n, i, path)
    decreases j - i
  {
    if i < j {
      ForkListed(n, i + 1, j, path, x);
    }
  }

  lemma {:induction false} ListedUnderFork(n: Node, i: nat, path: Path, x: Entry) returns (j: nat)
    requires i <= |n.forks| && x in ForksListing(n, i, path)
    ensures i <= j < |n.forks| && x in Listing(n.forks[j].child, path + n.forks[j].prefix)
    decreases |n.forks| - i
  {
    if x in Listing(n.forks[i].child, path + n.forks[i].prefix) {
      j := i;
    } else {
      j := ListedUnderFork(n, i + 1, path, x);
    }
  }

  lemma {:induction false} ListingExtends(n: Node, path: Path, x: Entry)
    requires x in Listing(n, path)
    ensures path <= x.path
    decreases n
  {
    if x !in Own(n, path) {
      var j := ListedUnderFork(n, 0, path, x);
      ListingExtends(n.forks[j].child, path + n.forks[j].prefix, x);
    }
  }

  /** An entry listed below a fork continues the path with the fork's prefix. */
  lemma ForkListingExtends(n: Node, j: nat, path: Path, x: Entry)
    requires Decoded(n) && j < |n.forks| && x in Listing(n.forks[j].child, path + n.forks[j].prefix)
    ensures path <= x.path && |path| < |x.path|
    ensures x.path[|path|] == n.forks[j].prefix[0] && n.forks[j].prefix <= x.path[|path|..]
  {
    var f := n.forks[j];
    ListingExtends(f.child, path + f.prefix, x);
    assert x.path[|path|] == (path + f.prefix)[|path|] == f.prefix[0];
    assert forall k :: 0 <= k < |f.prefix| ==> x.path[|path|..][k] == (path + f.prefix)[|path| + k] == f.prefix[k];
  }

  /** Whatever the walk finds is listed, misfiled forks or not. */
  lemma {:induction false} FoundIsListed(n: Node, path: Path, p: Path, e: Reference)
    requires Decoded(n) && EntryAt(n, p) == Some(e)
    ensures Entry(path + p, e) in Listing(n, path)
    decreases |p|, 1
  {
    if p == [] {
      assert path + p == path;
    } else {
      var j := FoundUnderFork(n, path, p, e);
      ForkListed(n, 0, j, path, Entry(path + p, e));
    }
  }

  /** It is listed under the fork whose key is the first byte the walk went by. */
  lemma {:induction false} FoundUnderFork(n: Node, path: Path, p: Path, e: Reference) returns (j: nat)
    requires Decoded(n) && p != [] && EntryAt(n, p) == Some(e)
    ensures j < |n.forks| && n.forks[j].key == p[0]
    ensures Entry(path + p, e) in Listing(n.forks[j].child, path + n.forks[j].prefix)
    decreases |p|, 0
  {
    ForkForIsMember(n.forks, p[0]);
    var f := ForkFor(n.forks, p[0]).value;
    j :| 0 <= j < |n.forks| && n.forks[j] == f;
    SeekIgnoresType(f.child, p[|f.prefix|..], None, Later(None, f.contentType));
    FoundIsListed(f.child, path + f.prefix, p[|f.prefix|..], e);
    assert path + f.prefix + p[|f.prefix|..] == path + p;
  }

  // ---- Filing --------------------------------------------------------------

  /** The subtree holds an entry. */
  ghost predicate Lists(n: Node) {
    n.entry.Some? || exists i :: 0 <= i < |n.forks| && Lists(n.forks[i].child)
  }

  /** Every fork with an entry below it is filed under its prefix's first byte. */
  ghost predicate Filed(n: Node) {
    forall i :: 0 <= i < |n.forks| && Lists(n.forks[i].child) ==>
      n.forks[i].prefix != [] && n.forks[i].prefix[0] == n.forks[i].key && Filed(n.forks[i].child)
  }

  lemma {:induction false} ListedLists(n: Node, path: Path, x: Entry)
    requires x in Listing(n, path)
    ensures Lists(n)
    decreases n
  {
    if x !in Own(n, path) {
      var j := ListedUnderFork(n, 0, path, x);
      ListedLists(n.forks[j].child, path + n.forks[j].prefix, x);
    }
  }

  lemma {:induction false} ListsSomething(n: Node, path: Path) returns (x: Entry)
    requires Lists(n)
    ensures x in Listing(n, path)
    decreases n
  {
    if n.entry.Some? {
      x := Entry(path, n.entry.value);
    } else {
      var j :| 0 <= j < |n.forks| && Lists(n.forks[j].child);
      x := ListsSomething(n.forks[j].child, path + n.forks[j].prefix);
      ForkListed(n, 0, j, path, x);
    }
  }

  /** On a filed node what is listed at an extension is what the walk finds there. */
  lemma {:induction false} ListedIsFound(n: Node, path: Path, p: Path, e: Reference)
    requires Decoded(n) && Filed(n) && Entry(path + p, e) in Listing(n, path)
    ensures EntryAt(n, p) == Some(e)
    decreases n
  {
    var x := Entry(path + p, e);
    if x in Own(n, path) {
      assert |path + p| == |path|;
    } else {
      var j := ListedUnderFork(n, 0, path, x);
      var f := n.forks[j];
      ListedLists(f.child, path + f.prefix, x);
      ForkListingExtends(n, j, path, x);
      assert x.path[|path|..] == p;
      assert path + f.prefix + p[|f.prefix|..] == path + p;
      ListedIsFound(f.child, path + f.prefix, p[|f.prefix|..], e);
      EntryThroughFork(n, j, p);
    }
  }

  /** Under any path, what is listed at an extension is exactly what the walk finds. */
  lemma ListingIsWalk(n: Node, path: Path, p: Path, e: Reference)
    requires Decoded(n) && Filed(n)
    ensures Entry(path + p, e) in Listing(n, path) <==> EntryAt(n, p) == Some(e)
  {
    if Entry(path + p, e) in Listing(n, path) {
      ListedIsFound(n, path, p, e);
    }
    if EntryAt(n, p) == Some(e) {
      FoundIsListed(n, path, p, e);
    }
  }

  // ---- Listing a path twice ------------------------------------------------

  ghost predicate DistinctPaths(es: seq<Entry>) {
    forall i, j :: 0 <= i < j < |es| ==> es[i].path != es[j].path
  }

  ghost predicate Apart(a: seq<Entry>, b: seq<Entry>) {
    forall x, y :: x in a && y in b ==> x.path != y.path
  }

  lemma DistinctConcat(a: seq<Entry>, b: seq<Entry>)
    ensures DistinctPaths(a + b) <==> DistinctPaths(a) && DistinctPaths(b) && Apart(a, b)
  {
    if DistinctPaths(a + b) {
      forall i, j | 0 <= i < j < |a|
        ensures a[i].path != a[j].path
      {
        assert (a + b)[i] == a[i] && (a + b)[j] == a[j];
      }
      forall i, j | 0 <= i < j < |b|
        ensures b[i].path != b[j].path
      {
        assert (a + b)[|a| + i] == b[i] && (a + b)[|a| + j] == b[j];
      }
      forall x, y | x in a && y in b
        ensures x.path != y.path
      {
        var i :| 0 <= i < |a| && a[i] == x;
        var j :| 0 <= j < |b| && b[j] == y;
        assert (a + b)[i] == x && (a + b)[|a| + j] == y;
      }
    }
  }

  lemma {:induction false} ListingDistinct(n: Node, path: Path)
    requires Decoded(n) && Filed(n)
    ensures DistinctPaths(Listing(n, path))
    decreases n, |n.forks| + 1
  {
    ForksListingDistinct(n, 0, path);
    forall y | y in ForksListing(n, 0, path)
      ensures y.path != path
    {
      var j := ListedUnderFork(n, 0, path, y);
      ForkListingExtends(n, j, path, y);
    }
    DistinctConcat(Own(n, path), ForksListing(n, 0, path));
  }

  lemma {:induction false} ForksListingDistinct(n: Node, i: nat, path: Path)
    requires Decoded(n) && Filed(n) && i <= |n.forks|
    ensures DistinctPaths(ForksListing(n, i, path))
    decreases n, |n.forks| - i
  {
    if i < |n.forks| {
      var f := n.forks[i];
      var first, rest := Listing(f.child, path + f.prefix), ForksListing(n, i + 1, path);
      if first == [] {
        assert DistinctPaths(first);
      } else {
        ListedLists(f.child, path + f.prefix, first[0]);
        ListingDistinct(f.child, path + f.prefix);
      }
      ForksListingDistinct(n, i + 1, path);
      forall x, y | x in first && y in rest
        ensures x.path != y.path
      {
        var j := ListedUnderFork(n, i + 1, path, y);
        ForkListingExtends(n, i, path, x);
        ForkListingExtends(n, j, path, y);
        ListedLists(n.forks[j].child, path + n.forks[j].prefix, y);
      }
      DistinctConcat(first, rest);
    }
  }

  /** With no path listed twice, no two forks list the same one, nor one fork any twice. */
  lemma {:induction false} ForksApart(n: Node, i: nat, path: Path, j: nat, k: nat)
    requires i <= j <= k < |n.forks| && DistinctPaths(ForksListing(n, i, path))
    ensures DistinctPaths(Listing(n.forks[j].child, path + n.forks[j].prefix))
    ensures j < k ==> Apart(Listing(n.forks[j].child, path + n.forks[j].prefix),
                            Listing(n.forks[k].child, path + n.forks[k].prefix))
    decreases |n.forks| - i
  {
    var first, rest := Listing(n.forks[i].child, path + n.forks[i].prefix), ForksListing(n, i + 1, path);
    DistinctConcat(first, rest);
    if i < j {
      ForksApart(n, i + 1, path, j, k);
    } else if j < k {
      forall x, y | x in first && y in Listing(n.forks[k].child, path + n.forks[k].prefix)
        ensures x.path != y.path
      {
        ForkListed(n, i + 1, k, path, y);
      }
    }
  }

  // ---- Agreement forces filing ---------------------------------------------

  ghost predicate FoundAsListed(n: Node, path: Path, p: Path, e: Reference) {
    Entry(path + p, e) in Listing(n, path) <==> EntryAt(n, p) == Some(e)
  }

  /** Listing and walk agree below `path`, each path listed once. */
  ghost predicate Agree(n: Node, path: Path) {
    DistinctPaths(Listing(n, path)) && forall p, e :: FoundAsListed(n, path, p, e)
  }

  /** A fork that lists anything is the one the walk takes for it, so its key is the
      byte the walk went by. */
  lemma AgreementFilesFork(n: Node, path: Path, i: nat)
    requires Decoded(n) && Agree(n, path) && i < |n.forks| && Lists(n.forks[i].child)
    ensures n.forks[i].prefix[0] == n.forks[i].key
  {
    var f := n.forks[i];
    var x := ListsSomething(f.child, path + f.prefix);
    ForkListed(n, 0, i, path, x);
    ForkListingExtends(n, i, path, x);
    var p := x.path[|path|..];
    assert path + p == x.path;
    assert FoundAsListed(n, path, p, x.reference);
    var j := FoundUnderFork(n, path, p, x.reference);
    DistinctConcat(Own(n, path), ForksListing(n, 0, path));
    if i < j {
      ForksApart(n, 0, path, i, j);
    } else if j < i {
      ForksApart(n, 0, path, j, i);
    }
  }

  lemma AgreementDescends(n: Node, path: Path, i: nat)
    requires Decoded(n) && Agree(n, path) && i < |n.forks| && n.forks[i].prefix[0] == n.forks[i].key
    ensures Agree(n.forks[i].child, path + n.forks[i].prefix)
  {
    var f := n.forks[i];
    DistinctConcat(Own(n, path), ForksListing(n, 0, path));
    ForksApart(n, 0, path, i, i);
    forall p, e
      ensures FoundAsListed(f.child, path + f.prefix, p, e)
    {
      var x := Entry(path + f.prefix + p, e);
      if x in Listing(f.child, path + f.prefix) {
        ForkListed(n, 0, i, path, x);
        assert path + f.prefix + p == path + (f.prefix + p);
        assert FoundAsListed(n, path, f.prefix + p, e);
        EntryThroughFork(n, i, f.prefix + p);
        assert (f.prefix + p)[|f.prefix|..] == p;
      }
      if EntryAt(f.child, p) == Some(e) {
        FoundIsListed(f.child, path + f.prefix, p, e);
      }
    }
  }

  lemma {:induction false} AgreementFiles(n: Node, path: Path)
    requires Decoded(n) && Agree(n, path)
    ensures Filed(n)
    decreases n
  {
    forall i | 0 <= i < |n.forks| && Lists(n.forks[i].child)
      ensures n.forks[i].prefix[0] == n.forks[i].key && Filed(n.forks[i].child)
    {
      AgreementFilesFork(n, path, i);
      AgreementDescends(n, path, i);
      AgreementFiles(n.forks[i].child, path + n.forks[i].prefix);
    }
  }

  // ---- The main results ----------------------------------------------------

  lemma WalkAgrees(root: Node, p: Path, e: Reference)
    requires Decoded(root) && Filed(root)
    ensures Entry(p, e) in Listing(root, []) <==> EntryAt(root, p) == Some(e)
  {
    assert [] + p == p;
    ListingIsWalk(root, [], p, e);
  }

  /** On whatever the decoder yields, every path is listed once and exactly what
      the walk finds is listed, if and only if every fork with an entry below it
      is filed under its prefix's first byte. */
  lemma FiledIffAgreeing(root: Node)
    requires Decoded(root)
    ensures Filed(root) <==>
            && DistinctPaths(Listing(root, []))
            && forall p, e :: Entry(p, e) in Listing(root, []) <==> EntryAt(root, p) == Some(e)
  {
    if Filed(root) {
      ListingDistinct(root, []);
      forall p, e
        ensures Entry(p, e) in Listing(root, []) <==> EntryAt(root, p) == Some(e)
      {
        WalkAgrees(root, p, e);
      }
    }
    if DistinctPaths(Listing(root, []))
       && forall p, e :: Entry(p, e) in Listing(root, []) <==> EntryAt(root, p) == Some(e) {
      forall p, e
        ensures FoundAsListed(root, [], p, e)
      {
        assert [] + p == p;
        assert Entry(p, e) in Listing(root, []) <==> EntryAt(root, p) == Some(e);
      }
      AgreementFiles(root, []);
    }
  }

  lemma DropJoin(prefix: Path, p: Path, q: Path)
    requires prefix <= p
    ensures prefix <= p + q && (p + q)[|prefix|..] == p[|prefix|..] + q
  {
  }

  /** The walk composes, on any node: from where `p` leads, `q` leads where `p + q`
      leads from the start. */
  lemma {:induction false} SeekComposes(n: Node, p: Path, q: Path, ct: Option<string>)
    requires Seek(n, p, ct).Ok?
    ensures Seek(n, p + q, ct) == Seek(Seek(n, p, ct).value.0, q, Seek(n, p, ct).value.1)
    decreases |p|
  {
    if p == [] {
      assert p + q == q;
    } else {
      var f := ForkFor(n.forks, p[0]).value;
      DropJoin(f.prefix, p, q);
      assert (p + q)[0] == p[0];
      SeekComposes(f.child, p[|f.prefix|..], q, Later(ct, f.contentType));
    }
  }

  /** The forks a walk goes through. */
  function ForksTaken(n: Node, p: Path): seq<Fork>
    decreases |p|
  {
    if p == [] then [] else
      match ForkFor(n.forks, p[0])
      case None => []
      case Some(f) =>
        if f.prefix == [] || !(f.prefix <= p) then [] else [f] + ForksTaken(f.child, p[|f.prefix|..])
  }

  /** The content type of the last of the forks that carries one, or the given one. */
  ghost predicate LastType(fs: seq<Fork>, given: Option<string>, ct: Option<string>) {
    || (ct == given && forall j :: 0 <= j < |fs| ==> fs[j].contentType.None?)
    || (exists i :: TypedLast(fs, i) && ct == fs[i].contentType)
  }

  predicate TypedLast(fs: seq<Fork>, i: int) {
    0 <= i < |fs| && fs[i].contentType.Some? && forall j :: i < j < |fs| ==> fs[j].contentType.None?
  }

  lemma {:induction false} WalkTypeIsLast(n: Node, p: Path, ct: Option<string>)
    requires Seek(n, p, ct).Ok?
    ensures LastType(ForksTaken(n, p), ct, Seek(n, p, ct).value.1)
    decreases |p|
  {
    if p != [] {
      var f := ForkFor(n.forks, p[0]).value;
      var rest := ForksTaken(f.child, p[|f.prefix|..]);
      WalkTypeIsLast(f.child, p[|f.prefix|..], Later(ct, f.contentType));
      TypeCons(f, rest, ct, Seek(n, p, ct).value.1);
    }
  }

  lemma TypeCons(f: Fork, rest: seq<Fork>, given: Option<string>, ct: Option<string>)
    requires LastType(rest, if f.contentType.Some? then f.contentType else given, ct)
    ensures LastType([f] + rest, given, ct)
  {
    var fs := [f] + rest;
    if i :| TypedLast(rest, i) && ct == rest[i].contentType {
      assert TypedLast(fs, i + 1) && fs[i + 1] == rest[i];
    } else {
      assert forall j :: 1 <= j < |fs| ==> fs[j] == rest[j - 1];
      if f.contentType.Some? {
        assert TypedLast(fs, 0);
      }
    }
  }

  /** The content type a lookup returns is that of the last fork to carry one on the way
      to the entry, through the index document if it was redirected. */
  lemma LookupTypeIsLast(root: Node, p: Path)
    requires Resume(root, p, None, false).Ok?
    ensures Seek(root, p, None).Ok?
    ensures var m := Seek(root, p, None).value.0;
            var whole := if m.entry.Some? then p else p + IndexDocument(m).value;
            LastType(ForksTaken(root, whole), None, Resume(root, p, None, false).value.1)
  {
    var (m, ct) := Seek(root, p, None).value;
    if m.entry.Some? {
      WalkTypeIsLast(root, p, None);
    } else {
      var q := IndexDocument(m).value;
      SeekComposes(root, p, q, None);
      WalkTypeIsLast(root, p + q, None);
    }
  }

  /** A walk that fails got as far as some node, and there either no fork is filed under
      the next byte, or the one that is does not match what is left. */
  lemma {:induction false} WalkFailsAt(n: Node, p: Path, ct: Option<string>) returns (k: nat)
    requires Decoded(n) && Seek(n, p, ct).Err?
    ensures k < |p| && Seek(n, p[..k], ct).Ok?
    ensures var m := Seek(n, p[..k], ct).value.0;
            match Seek(n, p, ct).error
            case NoFork => forall f :: f in m.forks ==> f.key != p[k]
            case PrefixMismatch => exists f :: f in m.forks && f.key == p[k] && !(f.prefix <= p[k..])
            case NoEntry => false
    decreases |p|
  {
    ForkForIsMember(n.forks, p[0]);
    var found := ForkFor(n.forks, p[0]);
    if found.None? || !(found.value.prefix <= p) {
      k := 0;
      assert p[..0] == [] && p[0..] == p;
    } else {
      var f := found.value;
      var l := |f.prefix|;
      var j := WalkFailsAt(f.child, p[l..], Later(ct, f.contentType));
      k := l + j;
      assert p[..k][0] == p[0] && f.prefix <= p[..k] && p[..k][l..] == p[l..][..j];
      assert p[k] == p[l..][j] && p[k..] == p[l..][j..];
    }
  }

  /** Looking a path up finds a reference exactly when the listing has it at that
      path, or the path leads to a node without an entry whose index document is
      listed below it. */
  lemma LookupAgreesWithListing(root: Node, p: Path, e: Reference)
    requires Decoded(root) && Filed(root)
    ensures var found := Resume(root, p, None, false);
            (found.Ok? && found.value.0 == e) <==>
            (|| Entry(p, e) in Listing(root, [])
             || (&& Seek(root, p, None).Ok?
                 && var m := Seek(root, p, None).value.0;
                    m.entry.None? && IndexDocument(m).Some?
                    && Entry(p + IndexDocument(m).value, e) in Listing(root, [])))
  {
    WalkAgrees(root, p, e);
    if Seek(root, p, None).Ok? {
      var (m, ct) := Seek(root, p, None).value;
      if m.entry.None? && IndexDocument(m).Some? {
        WalkAgrees(root, p + IndexDocument(m).value, e);
        SeekComposes(root, p, IndexDocument(m).value, None);
      }
    }
  }

  /** No path is listed twice. */
  lemma ListedOnce(root: Node)
    requires Decoded(root) && Filed(root)
    ensures DistinctPaths(Listing(root, []))
  {
    ListingDistinct(root, []);
  }

  /** A fork filed under another byte than its prefix starts with is listed but
      cannot be looked up. */
  lemma MisfiledForkIsLost(e: Reference)
    ensures var leaf := Node(Some(e), []);
            var root := Node(None, [Fork(1, [2], None, None, leaf)]);
            && Decoded(root) && !Filed(root)
            && Entry([2], e) in Listing(root, [])
            && Resume(root, [2], None, false) == Err(NoFork)
  {
    var leaf := Node(Some(e), []);
    var root := Node(None, [Fork(1, [2], None, None, leaf)]);
    assert ForkFor(root.forks[1..], 2).None?;
    assert Lists(root.forks[0].child) && root.forks[0].prefix[0] != root.forks[0].key;
    var here: Path := [];
    assert here + [2] == [2];
    assert Entry([2], e) in Listing(leaf, here + [2]);
    ForkListed(root, 0, 0, here, Entry([2], e));
  }
}
