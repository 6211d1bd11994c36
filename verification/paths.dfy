/**
 * Path strings: joining, "~/" expansion, the one-segment-under-home rule
 * that guards every deletion, and scp-style "host:path" destinations.
 * Paths are canonical strings ('/' separated, already resolved).
 */
module Paths {

  import opened Common
  import opened Text

  /**
   * base / rel for pathlib paths: an empty part adds nothing, an absolute
   * part replaces the base, and the root "/" takes no extra separator.
   */
  function JoinPath(base: string, rel: string): (r: string)
    ensures rel != [] && rel[0] != '/' && base != [] && base[|base| - 1] != '/' ==> r == base + "/" + rel
    ensures rel != [] && rel[0] == '/' ==> r == rel
    ensures rel == [] ==> r == base
  {
    if rel == [] then base
    else if rel[0] == '/' then rel
    else if base != [] && base[|base| - 1] == '/' then base + rel
    else base + "/" + rel
  }

  /** expand_tilde: a leading "~/" becomes the home directory; anything else is kept. */
  function ExpandTilde(home: string, p: string): (r: string)
    ensures !StartsWith(p, "~/") ==> r == p
    ensures StartsWith(p, "~/") ==> r == JoinPath(home, p[2..])
  {
    if StartsWith(p, "~/") then JoinPath(home, p[2..]) else p
  }

  /** A relative "~/" path lands under home, one separator in between. */
  lemma ExpandTildeRelative(home: string, rest: string)
    requires home != [] && home[|home| - 1] != '/'
    requires rest != [] && rest[0] != '/'
    ensures ExpandTilde(home, "~/" + rest) == home + "/" + rest
  {
    assert StartsWith("~/" + rest, "~/");
    assert ("~/" + rest)[2..] == rest;
  }

  /** One path segment: non-empty and slash-free. */
  predicate Segment(seg: string)
  {
    seg != [] && NoChar(seg, '/')
  }

  /**
   * is_safe_work_dir on resolved paths: the work dir must be exactly one
   * segment below home.
   */
  predicate IsSafeWorkDir(home: string, workDir: string)
  {
    var prefix := home + "/";
    && StartsWith(workDir, prefix)
    && Segment(workDir[|prefix|..])
    && workDir != home
  }

  /** The safe work dirs are exactly home + "/" + one segment. */
  lemma SafeWorkDirShape(home: string, workDir: string)
    ensures IsSafeWorkDir(home, workDir) <==> exists seg | Segment(seg) :: workDir == home + "/" + seg
  {
    if IsSafeWorkDir(home, workDir) {
      var seg := workDir[|home| + 1..];
      assert workDir == home + "/" + seg;
    }
    if exists seg | Segment(seg) :: workDir == home + "/" + seg {
      var seg :| Segment(seg) && workDir == home + "/" + seg;
      assert workDir[..|home| + 1] == home + "/";
      assert workDir[|home| + 1..] == seg;
    }
  }

  /** Home itself and anything two or more segments down are refused. */
  lemma UnsafeWorkDirs(home: string, a: string, b: string)
    requires a != [] && b != []
    ensures !IsSafeWorkDir(home, home)
    ensures !IsSafeWorkDir(home, home + "/" + a + "/" + b)
  {
    var w := home + "/" + a + "/" + b;
    assert w[|home| + 1..][|a|] == '/';
  }

  /** Anything inside a safe work dir is itself refused. */
  lemma InsideSafeWorkDirIsUnsafe(home: string, workDir: string, name: string)
    requires IsSafeWorkDir(home, workDir) && Segment(name)
    ensures !IsSafeWorkDir(home, JoinPath(workDir, name))
  {
    var seg := workDir[|home| + 1..];
    assert workDir == home + "/" + seg;
    assert workDir[|workDir| - 1] == seg[|seg| - 1];
    assert JoinPath(workDir, name) == home + "/" + seg + "/" + name;
    UnsafeWorkDirs(home, seg, name);
  }

  /** The path is the root or lies below it. */
  predicate AtOrUnder(path: string, root: string)
  {
    path == root || StartsWith(path, root + "/")
  }

  /**
   * is_remote_dest: a non-empty "host:path" string that is not a local
   * absolute or dot-relative path and not a URL. None is a missing setting.
   */
  predicate IsRemoteDest(dest: Option<string>)
  {
    && dest.Some?
    && dest.value != []
    && !NoChar(dest.value, ':')
    && !StartsWith(dest.value, "/") && !StartsWith(dest.value, "./") && !StartsWith(dest.value, "../")
    && !Contains(dest.value, "://")
  }

  /** remote_host_part: the text before the first ':'. */
  function RemoteHostPart(dest: string): (host: string)
    ensures NoChar(host, ':')
  {
    BeforeFirst(dest, ':')
  }

  /** remote_path_part: the text after the first ':'; the source fails on a dest without ':'. */
  function RemotePathPart(dest: string): (path: string)
    requires !NoChar(dest, ':')
    ensures |path| < |dest|
  {
    AfterFirst(dest, ':')
  }

  /** Joining the two parts with ':' gives the destination back. */
  lemma RemotePartsJoin(dest: Option<string>)
    requires IsRemoteDest(dest)
    ensures RemoteHostPart(dest.value) + ":" + RemotePathPart(dest.value) == dest.value
  {
    SplitFirstJoin(dest.value, ':');
  }

  /** Splitting host + ":" + path gives the two parts back when the host has no ':'. */
  lemma RemotePartsSplit(host: string, path: string)
    requires NoChar(host, ':')
    ensures RemoteHostPart(host + ":" + path) == host
    ensures !NoChar(host + ":" + path, ':') && RemotePathPart(host + ":" + path) == path
  {
    var d := host + ":" + path;
    assert d[|host|] == ':';
    assert d == host + (":" + path);
    AfterFirstSkips(host, ":" + path, ':');
    AfterFirstHead(":" + path, ':');
    assert (":" + path)[1..] == path;
    SplitFirstJoin(d, ':');
  }
}
