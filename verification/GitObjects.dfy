/** varvig/internal/gitobj/gitobj.go: Git's objects, identities and file modes. */
module GitObjects {
  import opened Basics

  type Oid = Bytes
  type Kind = Bytes

  datatype GitObject = GitObject(kind: Kind, body: Bytes)

  const KIND_BLOB := Ascii("blob")
  const KIND_TREE := Ascii("tree")
  const KIND_COMMIT := Ascii("commit")
  const KIND_TAG := Ascii("tag")

  const MODE_FILE := Ascii("100644")
  const MODE_EXEC := Ascii("100755")
  const MODE_SYMLINK := Ascii("120000")
  const MODE_TREE := Ascii("40000")

  lemma KindsDiffer()
    ensures KIND_BLOB != KIND_TREE && KIND_BLOB != KIND_COMMIT && KIND_TREE != KIND_COMMIT
  {
    assert KIND_BLOB[0] == 98 && KIND_TREE[0] == 116 && KIND_COMMIT[0] == 99;
  }
}
