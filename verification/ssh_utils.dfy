/**
 * How the GUI addresses the server: the ssh target string, the ssh and scp
 * argument prefixes, where the remote script lives, and the labels of the
 * execution modes. Every setting is trimmed before use.
 */
module SshUtils {

  import opened Text

  /** ssh_target: "" without a host, the host as given when it names a user, else user@host. */
  function SshTarget(user: string, host: string): (target: string)
    ensures target == [] <==> Strip(host) == []
    ensures Strip(host) != [] && '@' in host ==> target == Strip(host)
    ensures Strip(host) != [] && '@' !in host && Strip(user) != [] ==> target == Strip(user) + "@" + Strip(host)
    ensures Strip(host) != [] && '@' !in host && Strip(user) == [] ==> target == Strip(host)
    ensures Strip(target) == target
  {
    var h := Strip(host);
    var u := Strip(user);
    StripIdempotent(host);
    if h == [] then []
    else if '@' in host then h
    else if u != [] then
      var t := u + "@" + h;
      StripEnds(user);
      StripEnds(host);
      assert t[0] == u[0] && t[|t| - 1] == h[|h| - 1];
      StripUnchanged(t);
      t
    else h
  }

  /** A target that already names a user is passed through unchanged, whatever user is supplied. */
  lemma SshTargetStable(user: string, host: string, user2: string)
    requires '@' in SshTarget(user, host)
    ensures SshTarget(user2, SshTarget(user, host)) == SshTarget(user, host)
  {
  }

  /** The pair [flag, value] when the trimmed value is non-blank, else nothing. */
  function OptionPair(flag: string, value: string): (args: seq<string>)
    ensures Strip(value) == [] <==> args == []
    ensures args != [] ==> args == [flag, Strip(value)]
  {
    if Strip(value) == [] then [] else [flag, Strip(value)]
  }

  /** build_ssh_base_args: ssh -tt, then -p port and -i key when given, then the target. */
  function BuildSshBaseArgs(target: string, port: string, keyfile: string): (args: seq<string>)
    ensures |args| == 3 + |OptionPair("-p", port)| + |OptionPair("-i", keyfile)|
    ensures args[0] == "ssh" && args[1] == "-tt"
    ensures args[|args| - 1] == target
    ensures Strip(port) != [] ==> args[2] == "-p" && args[3] == Strip(port)
    ensures Strip(keyfile) != [] ==> args[|args| - 3] == "-i" && args[|args| - 2] == Strip(keyfile)
  {
    var p := OptionPair("-p", port);
    var k := OptionPair("-i", keyfile);
    ArgsLayout(["ssh", "-tt"], p, k, [target]);
    ["ssh", "-tt"] + p + k + [target]
  }

  /** Where the parts of head + p + k + tail sit, for option pairs p and k of zero or two items. */
  lemma ArgsLayout<T>(head: seq<T>, p: seq<T>, k: seq<T>, tail: seq<T>)
    requires |p| == 0 || |p| == 2
    requires |k| == 0 || |k| == 2
    ensures var a := head + p + k + tail;
      && |a| == |head| + |p| + |k| + |tail|
      && (forall i | 0 <= i < |head| :: a[i] == head[i])
      && (forall i | 0 <= i < |tail| :: a[|a| - |tail| + i] == tail[i])
      && (p != [] ==> a[|head|] == p[0] && a[|head| + 1] == p[1])
      && (k != [] ==> a[|a| - |tail| - 2] == k[0] && a[|a| - |tail| - 1] == k[1])
  {
  }

  /** build_scp_base_args: scp, then -P port and -i key when given; no target. */
  function BuildScpBaseArgs(port: string, keyfile: string): (args: seq<string>)
    ensures |args| == 1 + |OptionPair("-P", port)| + |OptionPair("-i", keyfile)|
    ensures args[0] == "scp"
    ensures Strip(port) != [] ==> args[1] == "-P" && args[2] == Strip(port)
    ensures Strip(keyfile) != [] ==> args[|args| - 2] == "-i" && args[|args| - 1] == Strip(keyfile)
  {
    var p := OptionPair("-P", port);
    var k := OptionPair("-i", keyfile);
    ArgsLayout(["scp"], p, k, []);
    ["scp"] + p + k + []
  }

  /** scp takes the same options as ssh, with the port flag upper-cased and no target. */
  lemma ScpMatchesSsh(target: string, port: string, keyfile: string)
    ensures var ssh := BuildSshBaseArgs(target, port, keyfile);
            BuildScpBaseArgs(port, keyfile)[1..]
            == if Strip(port) != [] then ["-P"] + ssh[3..|ssh| - 1] else ssh[2..|ssh| - 1]
  {
    var p := OptionPair("-p", port);
    var cap := OptionPair("-P", port);
    var k := OptionPair("-i", keyfile);
    assert BuildSshBaseArgs(target, port, keyfile) == ["ssh", "-tt"] + p + k + [target];
    assert BuildScpBaseArgs(port, keyfile) == ["scp"] + cap + k;
    SlicesAlign("ssh", "-tt", "scp", p, cap, k, target);
  }

  /** Two argument lists built from option pairs of equal shape agree past their fixed heads. */
  lemma SlicesAlign<T>(x: T, y: T, z: T, p: seq<T>, cap: seq<T>, k: seq<T>, t: T)
    requires |p| == |cap| && (p != [] ==> |p| == 2 && cap[1] == p[1])
    ensures var long := [x, y] + p + k + [t];
            ([z] + cap + k)[1..] == if p != [] then [cap[0]] + long[3..|long| - 1] else long[2..|long| - 1]
  {
    var long := [x, y] + p + k + [t];
    if p != [] {
      assert long[3..|long| - 1] == [p[1]] + k;
      assert cap == [cap[0], p[1]];
    } else {
      assert long[2..|long| - 1] == k;
    }
  }

  const DefaultRemoteScript: string := "rip_and_encode.py"

  /**
   * normalize_remote_script_path: blank gives the default name; a path with
   * '/' or a leading '~' is kept; a bare name is put under "~/".
   */
  function NormalizeRemoteScriptPath(remoteScript: string): (path: string)
    ensures Strip(remoteScript) == [] ==> path == DefaultRemoteScript
    ensures Strip(remoteScript) != [] && ('/' in Strip(remoteScript) || Strip(remoteScript)[0] == '~') ==> path == Strip(remoteScript)
    ensures Strip(remoteScript) != [] && '/' !in Strip(remoteScript) && Strip(remoteScript)[0] != '~' ==> path == "~/" + Strip(remoteScript)
    ensures path != []
  {
    var s := Strip(remoteScript);
    if s == [] then DefaultRemoteScript
    else if '/' in s || s[0] == '~' then s
    else "~/" + s
  }

  /** For any non-blank setting the result contains '/', so normalising again changes nothing. */
  lemma NormalizeRemoteScriptPathIdempotent(remoteScript: string)
    requires Strip(remoteScript) != []
    ensures NormalizeRemoteScriptPath(NormalizeRemoteScriptPath(remoteScript)) == NormalizeRemoteScriptPath(remoteScript)
  {
    var s := Strip(remoteScript);
    StripIdempotent(remoteScript);
    StripEnds(remoteScript);
    if '/' !in s && s[0] != '~' {
      var p := "~/" + s;
      assert p[0] == '~' && p[|p| - 1] == s[|s| - 1];
      StripUnchanged(p);
      assert p[1] == '/';
    }
  }

  /** The default name itself is not a path, so a blank setting needs two steps to settle. */
  lemma DefaultScriptGetsHomePrefix()
    ensures NormalizeRemoteScriptPath(NormalizeRemoteScriptPath("")) == "~/" + DefaultRemoteScript
  {
    var d := DefaultRemoteScript;
    assert d[0] == 'r' && d[|d| - 1] == 'y';
    StripUnchanged(d);
    assert d == "rip_and_encode" + ".py";
    NoSlashIn("rip_and_encode", ".py");
  }

  /** The default script name has no '/', checked in two short pieces. */
  lemma NoSlashIn(a: string, b: string)
    requires a == "rip_and_encode" && b == ".py"
    ensures '/' !in a + b
  {
    assert a[0] == 'r' && a[1] == 'i' && a[2] == 'p' && a[3] == '_' && a[4] == 'a' && a[5] == 'n' && a[6] == 'd';
    assert a[7] == '_' && a[8] == 'e' && a[9] == 'n' && a[10] == 'c' && a[11] == 'o' && a[12] == 'd' && a[13] == 'e';
    assert forall i | 0 <= i < |a| :: a[i] != '/';
    assert forall i | 0 <= i < |b| :: b[i] != '/';
  }

  const ModeRemote: string := "remote"
  const ModeLocalRipOnly: string := "local_rip_only"
  const ModeLocalRipEncode: string := "local_rip_encode"

  const LabelRemote: string := "Rip + encode on server (remote)"
  const LabelLocalRipOnly: string := "Rip locally (encode on server)"
  const LabelLocalRipEncode: string := "Rip + encode locally (upload results)"

  /** exec_mode_label: total; every unknown mode reads as the remote mode. */
  function ExecModeLabel(mode: string): (caption: string)
    ensures caption in {LabelRemote, LabelLocalRipOnly, LabelLocalRipEncode}
    ensures caption == LabelLocalRipOnly <==> Strip(mode) == ModeLocalRipOnly
    ensures caption == LabelLocalRipEncode <==> Strip(mode) == ModeLocalRipEncode
  {
    var m := Strip(mode);
    if m == ModeLocalRipOnly then LabelLocalRipOnly
    else if m == ModeLocalRipEncode then LabelLocalRipEncode
    else LabelRemote
  }

  /** Surrounding blanks never change the label. */
  lemma ExecModeLabelTrimmed(mode: string)
    ensures ExecModeLabel(Strip(mode)) == ExecModeLabel(mode)
  {
    StripIdempotent(mode);
  }
}
