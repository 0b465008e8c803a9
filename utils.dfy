/** Turning a link target into the URL to fetch. */
module Utils {
  import opened Chars

  /**
   * `PathBuf::push` of a relative path onto a base directory: a `/` goes
   * between them unless the base is empty or already ends in `/`.
   */
  function PushPath(base: string, rel: string): (p: string)
    ensures base == [] ==> p == rel
    ensures base != [] && base[|base| - 1] == '/' ==> p == base + rel
    ensures base != [] && base[|base| - 1] != '/' ==> p == base + "/" + rel
  {
    if base == [] then rel
    else if base[|base| - 1] == '/' then base + rel
    else base + "/" + rel
  }

  predicate IsRemote(u: string) {
    StartsWith(u, "http://") || StartsWith(u, "https://")
  }

  /**
   * `resolves_path`: an `http://` or `https://` target is kept; an absolute
   * path becomes a `file://` URL as it is; a relative one is first placed
   * under the base directory.
   */
  function ResolvesPath(basedir: string, u: string): (r: string)
    ensures r == u <==> IsRemote(u)
    ensures !IsRemote(u) ==> StartsWith(r, "file://") && |r| > |u| && r[|r| - |u|..] == u
  {
    if IsRemote(u) then u
    else
      var p := if StartsWith(u, "/") then u else PushPath(basedir, u);
      assert |p| >= |u| && p[|p| - |u|..] == u;
      var r := "file://" + p;
      assert r[..7] == "file://" && r[|r| - |u|..] == p[|p| - |u|..];
      r
  }

  /** An absolute path is prefixed with `file://` and nothing else. */
  lemma ResolvesAbsolute(basedir: string, u: string)
    requires StartsWith(u, "/")
    ensures ResolvesPath(basedir, u) == "file://" + u
  {
    assert !StartsWith(u, "http://") by {
      assert u[0] == '/';
    }
    assert !StartsWith(u, "https://") by {
      assert u[0] == '/';
    }
  }

  /** A relative path ends the result, after the base directory. */
  lemma ResolvesRelative(basedir: string, u: string)
    requires !IsRemote(u) && !StartsWith(u, "/")
    ensures var r := ResolvesPath(basedir, u);
            StartsWith(r, "file://" + basedir) && r[|r| - |u|..] == u
  {
    var r := ResolvesPath(basedir, u);
    var p := PushPath(basedir, u);
    assert r == "file://" + p;
    if basedir == [] {
      assert r[..|"file://" + basedir|] == "file://";
    } else if basedir[|basedir| - 1] == '/' {
      assert r == ("file://" + basedir) + u;
    } else {
      assert r == ("file://" + basedir) + ("/" + u);
    }
  }

  /** The base directory matters only for relative targets. */
  lemma BaseOnlyForRelative(b1: string, b2: string, u: string)
    requires IsRemote(u) || StartsWith(u, "/")
    ensures ResolvesPath(b1, u) == ResolvesPath(b2, u)
  {
  }
}
