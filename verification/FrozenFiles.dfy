/** Files frozen by path and digest, and references to them that are checked later.  A digest is any function of
    a file's contents. */
module FrozenFiles {
  import opened Text

  datatype Ref = Ref(path: string, sha256: string)

  predicate Under(path: string, root: string) {
    path == root || StartsWith(path, root + "/")
  }

  predicate UnderAny(path: string, roots: set<string>) {
    exists root :: root in roots && Under(path, root)
  }

  function Freeze<F>(files: map<string, F>, digest: F -> string, path: string): Ref
    requires path in files
  {
    Ref(path, digest(files[path]))
  }

  /** A reference that names a file below one of the roots, with the digest recorded for it. */
  predicate RefHolds<F>(files: map<string, F>, digest: F -> string, ref: Ref, roots: set<string>) {
    && Present(ref.path) && Sha256(Lower(ref.sha256))
    && UnderAny(ref.path, roots) && ref.path in files
    && digest(files[ref.path]) == Lower(ref.sha256)
  }

  lemma {:induction false} UnderOnly(path: string, root: string)
    ensures UnderAny(path, {root}) <==> Under(path, root)
  {
    if Under(path, root) {
      assert root in {root};
    }
  }
}
