/**
 The path containment filter: is a path inside the protected root?

 The test is a plain case-insensitive prefix comparison. Paths are not
 normalised and no path-separator boundary is checked, so a sibling whose
 name merely starts with the root's last component (`/guard/vaultage`
 beside `/guard/vault`) counts as protected.
 */
module Protection {
  import opened CaseFold

  /** IsFileUnderOurProtection: too short is never protected; otherwise the
      leading |root| characters are compared with the root ignoring case. */
  function IsUnderProtection(path: string, root: string): (r: bool)
    ensures |path| < |root| ==> !r
    ensures r <==> |root| <= |path|
                   && forall i :: 0 <= i < |root| ==> FoldChar(path[i]) == FoldChar(root[i])
  {
    if |path| < |root| then
      false
    else if !EqualsIgnoreCase(path[..|root|], root) then
      false
    else
      true
  }

  /** Reference view: a path is protected exactly when its upper-cased form
      starts with the upper-cased root. */
  lemma ProtectedIffUpperPrefix(path: string, root: string)
    ensures IsUnderProtection(path, root) <==> Upper(root) <= Upper(path)
  {
    if Upper(root) <= Upper(path) {
      forall i | 0 <= i < |root|
        ensures FoldChar(path[i]) == FoldChar(root[i])
      {
        assert Upper(path)[i] == Upper(root)[i];
      }
    }
  }

  /** The root itself, and every case variant of it, is protected. */
  lemma CaseVariantOfRootProtected(v: string, root: string)
    requires EqualsIgnoreCase(v, root)
    ensures IsUnderProtection(v, root)
    ensures IsUnderProtection(root, root)
  {
  }

  /** Extending a protected path keeps it protected, whatever the suffix:
      there is no separator boundary in the test. */
  lemma {:induction false} ExtensionStaysProtected(p: string, s: string, root: string)
    requires IsUnderProtection(p, root)
    ensures IsUnderProtection(p + s, root)
  {
    forall i | 0 <= i < |root|
      ensures FoldChar((p + s)[i]) == FoldChar(root[i])
    {
      assert (p + s)[i] == p[i];
    }
  }

  /** Any case variant of the root followed by anything is protected. */
  lemma {:induction false} RootFollowedByAnythingProtected(v: string, s: string, root: string)
    requires EqualsIgnoreCase(v, root)
    ensures IsUnderProtection(v + s, root)
  {
    CaseVariantOfRootProtected(v, root);
    ExtensionStaysProtected(v, s, root);
  }

  /** With an empty root every path is protected. */
  lemma EmptyRootProtectsEverything(path: string)
    ensures IsUnderProtection(path, "")
  {
  }

  /** The boundary behaviour on concrete paths. */
  lemma BoundaryExamples()
    ensures IsUnderProtection("/guard/vault/secrets.txt", "/guard/vault")
    ensures IsUnderProtection("/guard/vaultage/file.txt", "/guard/vault")
    ensures IsUnderProtection("/GUARD/Vault", "/guard/vault")
    ensures !IsUnderProtection("/guard/vaul", "/guard/vault")
    ensures !IsUnderProtection("/guard/other/vault", "/guard/vault")
  {
    RootFollowedByAnythingProtected("/guard/vault", "/secrets.txt", "/guard/vault");
    assert "/guard/vault/secrets.txt" == "/guard/vault" + "/secrets.txt";
    RootFollowedByAnythingProtected("/guard/vault", "age/file.txt", "/guard/vault");
    assert "/guard/vaultage/file.txt" == "/guard/vault" + "age/file.txt";
    assert FoldChar("/guard/other/vault"[7]) != FoldChar("/guard/vault"[7]);
  }
}
