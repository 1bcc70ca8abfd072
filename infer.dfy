/**
 * The path-hierarchy database of src/common/infer.rs: an arena of directory
 * "collections" and "files", keyed by canonical path. Canonicalisation is
 * done by the file system before these operations run, so paths arrive here
 * already canonical.
 */
module Infer {
  import opened Wrappers

  type CollectionId = nat
  type FileId = nat

  /** A canonical path: whether it starts at a root, and its components below that root. */
  datatype Path = Path(rooted: bool, comps: seq<string>)

  /** `Path::parent`: the path without its last component; none for a bare root (or the empty path). */
  function Parent(p: Path): (r: Option<Path>)
    ensures r.None? <==> p.comps == []
    ensures r.Some? ==> r.value.rooted == p.rooted && r.value.comps + [p.comps[|p.comps| - 1]] == p.comps
  {
    if p.comps == [] then None else Some(Path(p.rooted, p.comps[..|p.comps| - 1]))
  }

  /** `q` is `p` or one of the directories above it. */
  predicate IsAncestorOrSelf(q: Path, p: Path)
  {
    q.rooted == p.rooted && |q.comps| <= |p.comps| && q.comps == p.comps[..|q.comps|]
  }

  /** A directory record. */
  datatype Collection = Collection(path: Path, id: CollectionId, idParent: Option<CollectionId>, depth: nat, hasFiles: bool)

  /** A file record, attached to the collection of its directory. */
  datatype File = File(path: Path, id: FileId, idCollection: CollectionId)

  /**
   * The collection at index `i` is stored under its own id, is rooted, and is
   * either a root (no parent, depth 1) or points to an earlier collection
   * holding its parent directory, one level shallower.
   */
  predicate CollectionAt(cs: seq<Collection>, i: nat)
    requires i < |cs|
  {
    var c := cs[i];
    c.id == i && c.path.rooted && c.depth == |c.path.comps| + 1 &&
    match c.idParent
    case None => c.path.comps == [] && c.depth == 1
    case Some(pid) => pid < i && Parent(c.path) == Some(cs[pid].path) && c.depth == cs[pid].depth + 1
  }

  /** The file at index `j` is stored under its own id and points to the collection of its directory. */
  predicate FileAt(cs: seq<Collection>, fs: seq<File>, j: nat)
    requires j < |fs|
  {
    var f := fs[j];
    f.id == j && f.idCollection < |cs| && Parent(f.path) == Some(cs[f.idCollection].path)
  }

  /** A collection is marked as having files exactly when some file is attached to it. */
  predicate HasFilesExact(cs: seq<Collection>, fs: seq<File>)
  {
    forall i :: 0 <= i < |cs| ==> (cs[i].hasFiles <==> exists j :: 0 <= j < |fs| && fs[j].idCollection == i)
  }

  /** The shape of the collection and file lists that `complete` hands out. */
  predicate Forest(cs: seq<Collection>, fs: seq<File>)
  {
    (forall i :: 0 <= i < |cs| ==> CollectionAt(cs, i)) &&
    (forall j :: 0 <= j < |fs| ==> FileAt(cs, fs, j)) &&
    HasFilesExact(cs, fs)
  }

  /** The lookup map sends every stored path to the index of its collection, and nothing else. */
  predicate LookupAgrees(lookup: map<Path, CollectionId>, cs: seq<Collection>)
  {
    (forall p :: p in lookup ==> lookup[p] < |cs| && cs[lookup[p]].path == p) &&
    (forall i :: 0 <= i < |cs| ==> cs[i].path in lookup && lookup[cs[i].path] == i)
  }

  /** The invariant of the database's three fields. */
  predicate Consistent(lookup: map<Path, CollectionId>, cs: seq<Collection>, fs: seq<File>)
  {
    Forest(cs, fs) && LookupAgrees(lookup, cs)
  }

  /**
   * How the arena grows while the collections for `p` and its ancestors are
   * registered: old records stay as they were, new ones have no files and lie
   * on the way from the root down to `p`, and the lookup gains exactly the
   * ancestors of a rooted `p` that were missing.
   */
  ghost predicate GrowsBy(oldLookup: map<Path, CollectionId>, oldCs: seq<Collection>,
                          lookup: map<Path, CollectionId>, cs: seq<Collection>, p: Path)
  {
    |oldCs| <= |cs| && cs[..|oldCs|] == oldCs &&
    (forall i :: |oldCs| <= i < |cs| ==> !cs[i].hasFiles && IsAncestorOrSelf(cs[i].path, p)) &&
    (forall q :: q in lookup <==> q in oldLookup || (p.rooted && IsAncestorOrSelf(q, p)))
  }

  /** The directories above `p`, with `p` itself, are `p` and those above its parent. */
  lemma AncestorOrSelfOfParent(q: Path, p: Path)
    requires p.comps != []
    ensures IsAncestorOrSelf(q, p) <==> q == p || IsAncestorOrSelf(q, Parent(p).value)
  {
  }

  /**
   * Every directory above a stored collection is stored too, under a smaller
   * id: a parent always gets its id before its child.
   */
  lemma {:induction false} AncestorsStoredFirst(lookup: map<Path, CollectionId>, cs: seq<Collection>, fs: seq<File>, i: nat, q: Path)
    requires Consistent(lookup, cs, fs)
    requires i < |cs| && IsAncestorOrSelf(q, cs[i].path)
    ensures q in lookup && lookup[q] <= i
    decreases |cs[i].path.comps|
  {
    var p := cs[i].path;
    assert CollectionAt(cs, i);
    if |q.comps| == |p.comps| {
      assert q == p;
    } else {
      var pid := cs[i].idParent.value;
      AncestorOrSelfOfParent(q, p);
      AncestorsStoredFirst(lookup, cs, fs, pid, q);
    }
  }

  /**
   * Registering a new path whose parent directory (if any) is already stored
   * keeps the database consistent when the new record takes the next id and
   * a depth one more than its parent's.
   */
  lemma AppendKeepsConsistent(lookup: map<Path, CollectionId>, cs: seq<Collection>, fs: seq<File>,
                              p: Path, parentId: Option<CollectionId>, depth: nat)
    requires Consistent(lookup, cs, fs)
    requires p.rooted && p !in lookup
    requires match parentId
             case None => Parent(p) == None && depth == 1
             case Some(pid) => pid < |cs| && Parent(p) == Some(cs[pid].path) && depth == cs[pid].depth + 1
    ensures Consistent(lookup[p := |cs|], cs + [Collection(p, |cs|, parentId, depth, false)], fs)
  {
    var cs' := cs + [Collection(p, |cs|, parentId, depth, false)];
    forall i | 0 <= i < |cs'| ensures CollectionAt(cs', i) {
      if i < |cs| {
        assert CollectionAt(cs, i);
      } else if parentId.Some? {
        assert CollectionAt(cs, parentId.value);
      }
    }
    forall j | 0 <= j < |fs| ensures FileAt(cs', fs, j) {
      assert FileAt(cs, fs, j);
    }
    forall i | 0 <= i < |cs'|
      ensures cs'[i].hasFiles <==> exists j :: 0 <= j < |fs| && fs[j].idCollection == i
    {
      if i == |cs| {
        forall j | 0 <= j < |fs| ensures fs[j].idCollection != i {
          assert FileAt(cs, fs, j);
        }
      }
    }
  }

  /**
   * After the ancestors of `p` were registered (none, for a root), adding the
   * record for `p` itself completes the growth for `p`.
   */
  lemma GrowsByAppend(oldLookup: map<Path, CollectionId>, oldCs: seq<Collection>,
                      lookup: map<Path, CollectionId>, cs: seq<Collection>, p: Path, c: Collection)
    requires p.rooted && p !in oldLookup && c.path == p && !c.hasFiles
    requires p.comps == [] ==> lookup == oldLookup && cs == oldCs
    requires p.comps != [] ==> GrowsBy(oldLookup, oldCs, lookup, cs, Parent(p).value)
    ensures GrowsBy(oldLookup, oldCs, lookup[p := |cs|], cs + [c], p)
  {
    var cs' := cs + [c];
    assert cs'[..|oldCs|] == cs[..|oldCs|];
    if p.comps != [] {
      var pp := Parent(p).value;
      forall q ensures IsAncestorOrSelf(q, p) <==> q == p || IsAncestorOrSelf(q, pp) {
        AncestorOrSelfOfParent(q, p);
      }
    } else {
      assert forall q :: IsAncestorOrSelf(q, p) <==> q == p;
    }
  }

  /**
   * Every directory above a stored path is stored too, so looking up a
   * stored path grows nothing.
   */
  lemma StoredGrowsByNothing(lookup: map<Path, CollectionId>, cs: seq<Collection>, fs: seq<File>, p: Path)
    requires Consistent(lookup, cs, fs)
    requires p in lookup
    ensures GrowsBy(lookup, cs, lookup, cs, p)
  {
    forall q | p.rooted && IsAncestorOrSelf(q, p) ensures q in lookup {
      AncestorsStoredFirst(lookup, cs, fs, lookup[p], q);
    }
  }

  /** Two collections never share a path. */
  lemma PathsUnique(lookup: map<Path, CollectionId>, cs: seq<Collection>, i: nat, j: nat)
    requires LookupAgrees(lookup, cs)
    requires i < |cs| && j < |cs| && cs[i].path == cs[j].path
    ensures i == j
  {
  }

  /**
   * Attaching a new file for `p` to the collection `cid` of its directory,
   * and marking that collection as having files, keeps the invariant.
   */
  lemma AttachKeepsConsistent(lookup: map<Path, CollectionId>, cs: seq<Collection>, fs: seq<File>,
                              p: Path, cid: CollectionId)
    requires Consistent(lookup, cs, fs)
    requires cid < |cs| && Parent(p) == Some(cs[cid].path)
    ensures Consistent(lookup, cs[cid := cs[cid].(hasFiles := true)], fs + [File(p, |fs|, cid)])
  {
    var cs', fs' := cs[cid := cs[cid].(hasFiles := true)], fs + [File(p, |fs|, cid)];
    forall i | 0 <= i < |cs'| ensures CollectionAt(cs', i) {
      assert CollectionAt(cs, i);
    }
    forall j | 0 <= j < |fs'| ensures FileAt(cs', fs', j) {
      if j < |fs| { assert FileAt(cs, fs, j); }
    }
    forall i | 0 <= i < |cs'|
      ensures cs'[i].hasFiles <==> exists j :: 0 <= j < |fs'| && fs'[j].idCollection == i
    {
      if i != cid && cs'[i].hasFiles {
        var j :| 0 <= j < |fs| && fs[j].idCollection == i;
        assert fs'[j].idCollection == i;
      }
      if i == cid {
        assert fs'[|fs|].idCollection == i;
      }
    }
  }

  /** The database of src/common/infer.rs:8-12. */
  class Database {
    var lookup: map<Path, CollectionId>
    var collections: seq<Collection>
    var files: seq<File>

    ghost predicate Valid()
      reads this
    {
      Consistent(lookup, collections, files)
    }

    /** `Database::new`: everything empty. */
    constructor ()
      ensures Valid()
      ensures lookup == map[] && collections == [] && files == []
    {
      lookup := map[];
      collections := [];
      files := [];
    }

    /**
     * `add_collection_canon`: the id of the collection for `p`, registering
     * `p` and, first, every missing ancestor. A path without a root is
     * refused and a path already known returns its cached id, in both cases
     * with nothing changed.
     */
    method AddCollectionCanon(p: Path) returns (r: Option<CollectionId>)
      requires Valid()
      modifies this
      decreases |p.comps|
      ensures Valid() && files == old(files)
      ensures GrowsBy(old(lookup), old(collections), lookup, collections, p)
      ensures !p.rooted ==> r == None && lookup == old(lookup) && collections == old(collections)
      ensures p.rooted && p in old(lookup) ==> r == Some(old(lookup)[p]) && lookup == old(lookup) && collections == old(collections)
      ensures p.rooted ==> r.Some? && r.value < |collections| && collections[r.value].path == p
      ensures p.rooted && p !in old(lookup) ==> r == Some(|collections| - 1) && |old(collections)| <= r.value
      ensures p.rooted && p !in old(lookup) && (p.comps == [] || Parent(p).value in old(lookup)) ==>
                r == Some(|old(collections)|) && |collections| == |old(collections)| + 1
    {
      if !p.rooted {
        return None;
      }
      if p in lookup {
        StoredGrowsByNothing(lookup, collections, files, p);
        return Some(lookup[p]);
      }
      ghost var lookup0, collections0 := lookup, collections;
      var parentId: Option<CollectionId> := None;
      match Parent(p) {
        case Some(pp) =>
          parentId := AddCollectionCanon(pp);
          assert |collections0| <= |collections|;
        case None =>
      }
      var parentDepth := match parentId case Some(pid) => collections[pid].depth case None => 0;
      var id := |collections|;
      var c := Collection(p, id, parentId, parentDepth + 1, false);
      AppendKeepsConsistent(lookup, collections, files, p, parentId, parentDepth + 1);
      GrowsByAppend(lookup0, collections0, lookup, collections, p, c);
      lookup := lookup[p := id];
      collections := collections + [c];
      r := Some(id);
    }

    /**
     * `add_file_canon`: appends one file record for `p`, attached to the
     * collection of its directory (registered on the way if need be), and
     * marks that collection as having files. The same path added twice gives
     * two records. The source unwraps the parent's collection, so `p` must be
     * rooted and have a parent.
     */
    method AddFileCanon(p: Path) returns (r: FileId)
      requires Valid()
      requires p.rooted && p.comps != []
      modifies this
      ensures Valid()
      ensures r == |old(files)| && |files| == r + 1 && files[..r] == old(files)
      ensures files[r].path == p && files[r].id == r && files[r].idCollection < |collections|
      ensures collections[files[r].idCollection].path == Parent(p).value
      ensures collections[files[r].idCollection].hasFiles
      ensures forall q :: q in lookup <==> q in old(lookup) || IsAncestorOrSelf(q, Parent(p).value)
      ensures |old(collections)| <= |collections|
      ensures forall i :: 0 <= i < |old(collections)| && i != files[r].idCollection ==>
                collections[i] == old(collections)[i]
      ensures files[r].idCollection < |old(collections)| ==>
                collections[files[r].idCollection] == old(collections)[files[r].idCollection].(hasFiles := true)
      ensures forall i :: |old(collections)| <= i < |collections| && i != files[r].idCollection ==>
                !collections[i].hasFiles && IsAncestorOrSelf(collections[i].path, Parent(p).value)
    {
      var collection := AddCollectionCanon(Parent(p).value);
      var cid := collection.value;
      var id := |files|;
      AttachKeepsConsistent(lookup, collections, files, p, cid);
      collections := collections[cid := collections[cid].(hasFiles := true)];
      files := files + [File(p, id, cid)];
      r := id;
    }

    /** `complete`: hands out the collection and file lists, which form a well-shaped forest. */
    method Complete() returns (cs: seq<Collection>, fs: seq<File>)
      requires Valid()
      ensures cs == collections && fs == files
      ensures Forest(cs, fs)
      ensures forall i :: 0 <= i < |cs| ==> cs[i].id == i
      ensures forall j :: 0 <= j < |fs| ==> fs[j].id == j && fs[j].idCollection < |cs|
    {
      cs, fs := collections, files;
      forall i | 0 <= i < |cs| ensures cs[i].id == i {
        assert CollectionAt(cs, i);
      }
      forall j | 0 <= j < |fs| ensures fs[j].id == j && fs[j].idCollection < |cs| {
        assert FileAt(cs, fs, j);
      }
    }
  }
}
