// The path rewrite of `get_node` in the Python client
// (cosilico-py/src/cosilico_py/client/structure.py): an absolute path is
// put under the synthetic root "/root" before the tree resolver walks it.
// The resolver itself (anytree) is not part of this model.
module NodePath {
  import opened Wrappers

  /** `path[:5]`, `prefix[0]` raises IndexError on an empty path. */
  datatype PathError = EmptyPath

  function Prefix(path: string, n: nat): string
  {
    if |path| <= n then path else path[..n]
  }

  /** The path rewrite of `get_node`, as written: "/root" is put in front of
      an absolute path whose first five characters are not "/root". */
  function NormalizePath(path: string): Result<string, PathError>
  {
    if |path| == 0 then Err(EmptyPath)
    else if path[0] == '/' && Prefix(path, 5) != "/root" then Ok("/root" + path)
    else Ok(path)
  }

  /** An empty path fails; a relative path is kept; an absolute path comes
      out starting with "/root"; rewriting twice is rewriting once. */
  lemma NormalizePathMeaning(path: string)
    ensures NormalizePath(path).Err? <==> path == ""
    ensures path != "" && path[0] != '/' ==> NormalizePath(path) == Ok(path)
    ensures path != "" && path[0] == '/' ==>
      |NormalizePath(path).value| >= 5 && NormalizePath(path).value[..5] == "/root"
    ensures NormalizePath(path).Ok? ==> NormalizePath(NormalizePath(path).value) == NormalizePath(path)
  {
    if path != "" && path[0] == '/' {
      var q := NormalizePath(path).value;
      if Prefix(path, 5) != "/root" {
        assert q[..5] == "/root";
        assert Prefix(q, 5) == "/root";
      }
    }
  }

  /** The path names the root itself or lies under it. */
  predicate UnderRoot(q: string)
  {
    q == "/root" || (|q| >= 6 && q[..6] == "/root/")
  }

  /** As written, a top-level node whose name starts with "root" is not
      reached: "/rootdir" is left as it is, so the resolver looks for a root
      named "rootdir" instead of the child "rootdir" of "/root". */
  lemma NormalizePathMissesRootPrefixedName()
    ensures NormalizePath("/rootdir") == Ok("/rootdir")
    ensures !UnderRoot("/rootdir")
  {
    assert Prefix("/rootdir", 5) == "/root";
    assert "/rootdir"[..6] == "/rootd";
  }

  /** The rewrite as intended: every absolute path is made to lie under the
      synthetic root, unless it already does. */
  function NormalizePathCorrected(path: string): Result<string, PathError>
  {
    if |path| == 0 then Err(EmptyPath)
    else if path[0] == '/' && !UnderRoot(path) then Ok("/root" + path)
    else Ok(path)
  }

  /** The corrected rewrite puts every absolute path under the root, keeps
      relative paths and paths already under the root, and is idempotent. */
  lemma NormalizePathCorrectedMeaning(path: string)
    ensures NormalizePathCorrected(path).Err? <==> path == ""
    ensures path != "" && (path[0] != '/' || UnderRoot(path)) ==> NormalizePathCorrected(path) == Ok(path)
    ensures path != "" && path[0] == '/' ==> UnderRoot(NormalizePathCorrected(path).value)
    ensures NormalizePathCorrected(path).Ok? ==>
      NormalizePathCorrected(NormalizePathCorrected(path).value) == NormalizePathCorrected(path)
  {
    if path != "" && path[0] == '/' && !UnderRoot(path) {
      var q := "/root" + path;
      assert q[..6] == "/root/";
      assert UnderRoot(q);
    }
  }

  /** The corrected rewrite reaches the top-level "rootdir". */
  lemma NormalizePathCorrectedReachesRootPrefixedName()
    ensures NormalizePathCorrected("/rootdir") == Ok("/root/rootdir")
  {
    assert "/rootdir"[..6] == "/rootd";
    assert "/root" + "/rootdir" == "/root/rootdir";
  }
}
