/**
 * The small text files the command-line tool keeps: the extras NFO index
 * written next to extra videos, and the lookup of a Host entry in the ssh
 * client configuration. A file is its content, None when it does not exist.
 */
module CliFiles {

  import opened Common
  import opened Text

  const ExtrasOpen: string := "<extras>\n"
  const ExtrasCloseTag: string := "</extras>"

  /** init_extras_nfo: create the file with its opening tag unless it exists. */
  function InitExtrasNfo(nfo: Option<string>): (r: Option<string>)
    ensures nfo.Some? ==> r == nfo
    ensures nfo.None? ==> r == Some(ExtrasOpen)
  {
    if nfo.None? then Some(ExtrasOpen) else nfo
  }

  /** The closing tag is in the text appended by close_extras_nfo. */
  lemma CloseLineHasTag(before: string)
    ensures Contains(before + ExtrasCloseTag + "\n", ExtrasCloseTag)
  {
    ContainsMiddle(before, ExtrasCloseTag, "\n");
  }

  /**
   * close_extras_nfo: a missing file stays missing; otherwise the closing
   * tag is appended unless the text already contains it.
   */
  function CloseExtrasNfo(nfo: Option<string>): (r: Option<string>)
    ensures nfo.None? <==> r.None?
    ensures r.Some? ==> Contains(r.value, ExtrasCloseTag) && StartsWith(r.value, nfo.value)
    ensures nfo.Some? && Contains(nfo.value, ExtrasCloseTag) ==> r == nfo
  {
    if nfo.None? then None
    else if Contains(nfo.value, ExtrasCloseTag) then
      assert nfo.value[..|nfo.value|] == nfo.value;
      nfo
    else
      var t := nfo.value + ExtrasCloseTag + "\n";
      CloseLineHasTag(nfo.value);
      assert t[..|nfo.value|] == nfo.value;
      Some(t)
  }

  /** Closing twice is the same as closing once. */
  lemma CloseExtrasNfoIdempotent(nfo: Option<string>)
    ensures CloseExtrasNfo(CloseExtrasNfo(nfo)) == CloseExtrasNfo(nfo)
  {
  }

  /** A fresh file that is initialised and closed holds exactly the two tags. */
  lemma InitThenClose()
    ensures CloseExtrasNfo(InitExtrasNfo(None)) == Some("<extras>\n</extras>\n")
  {
    var t := ExtrasOpen;
    assert t[1] != ExtrasCloseTag[1];
    assert !StartsWith(t, ExtrasCloseTag);
    ShortNotContains(t[1..], ExtrasCloseTag);
    assert !Contains(t, ExtrasCloseTag);
    assert t + ExtrasCloseTag + "\n" == "<extras>\n</extras>\n";
  }

  /** Text shorter than sub cannot contain it. */
  lemma {:induction false} ShortNotContains(s: string, sub: string)
    requires |s| < |sub|
    ensures !Contains(s, sub)
    decreases |s|
  {
    if |s| > 0 {
      ShortNotContains(s[1..], sub);
    }
  }

  /** The tag that marks a video as already listed. */
  function FilenameTag(filename: string): (tag: string)
    ensures StartsWith(tag, "<filename>") && EndsWith(tag, "</filename>")
    ensures |tag| == |filename| + 21
  {
    var tag := "<filename>" + filename + "</filename>";
    assert tag[..10] == "<filename>";
    assert tag[|tag| - 11..] == "</filename>";
    tag
  }

  /** The four-line video entry appended for one extra. */
  function VideoEntry(title: string, filename: string): (e: string)
    ensures Contains(e, FilenameTag(filename))
  {
    var a := "  <video>\n" + "    <title>" + title + "</title>\n" + "    ";
    var b := "\n" + "  </video>\n";
    ContainsMiddle(a, FilenameTag(filename), b);
    a + FilenameTag(filename) + b
  }

  /**
   * append_extra_nfo_if_missing: nothing happens when the file already lists
   * the filename; otherwise the entry is appended, creating the file when it
   * is missing (without the opening tag).
   */
  function AppendExtraNfoIfMissing(nfo: Option<string>, title: string, filename: string): (r: Option<string>)
    ensures r.Some? && Contains(r.value, FilenameTag(filename))
    ensures nfo.Some? && Contains(nfo.value, FilenameTag(filename)) ==> r == nfo
    ensures nfo.Some? && !Contains(nfo.value, FilenameTag(filename)) ==>
      r == Some(nfo.value + VideoEntry(title, filename))
    ensures nfo.None? ==> r == Some(VideoEntry(title, filename))
  {
    if nfo.Some? && Contains(nfo.value, FilenameTag(filename)) then nfo
    else
      var before := if nfo.Some? then nfo.value else "";
      ContainsSuffix(before, VideoEntry(title, filename), FilenameTag(filename));
      assert nfo.None? ==> before + VideoEntry(title, filename) == VideoEntry(title, filename);
      Some(before + VideoEntry(title, filename))
  }

  /** A second append with the same filename changes nothing, whatever the title. */
  lemma AppendExtraNfoIdempotent(nfo: Option<string>, title: string, title2: string, filename: string)
    ensures AppendExtraNfoIfMissing(AppendExtraNfoIfMissing(nfo, title, filename), title2, filename)
      == AppendExtraNfoIfMissing(nfo, title, filename)
  {
  }

  /** Appending keeps every piece of text the file already held. */
  lemma AppendKeepsContent(nfo: Option<string>, title: string, filename: string, sub: string)
    requires nfo.Some? && Contains(nfo.value, sub)
    ensures Contains(AppendExtraNfoIfMissing(nfo, title, filename).value, sub)
  {
    if !Contains(nfo.value, FilenameTag(filename)) {
      ContainsPrefix(nfo.value, VideoEntry(title, filename), sub);
    }
  }

  /**
   * The per-line rule of ssh_config_has_host: after trimming, a non-blank,
   * non-comment line that starts with "host " (any case) and lists the
   * name among its words after the first.
   */
  predicate HostLineNames(line: string, host: string)
  {
    var t := Strip(line);
    && t != []
    && !StartsWith(t, "#")
    && CiStartsWith(t, "host ")
    && var ws := SplitWs(t); |ws| > 0 && host in ws[1..]
  }

  /** The scan of ssh_config_has_host: the lines in order, stopping at the first match. */
  method AnyLine(lines: seq<string>, matches: string -> bool) returns (found: bool)
    ensures found <==> exists line | line in lines :: matches(line)
  {
    var k := 0;
    while k < |lines|
      invariant 0 <= k <= |lines|
      invariant forall i | 0 <= i < k :: !matches(lines[i])
    {
      if matches(lines[k]) {
        return true;
      }
      k := k + 1;
    }
    return false;
  }

  /** ssh_config_has_host over the file content; a missing file has no hosts. */
  method SshConfigHasHost(cfg: Option<string>, host: string) returns (found: bool)
    ensures found <==> cfg.Some? && exists line | line in SplitLines(cfg.value) :: HostLineNames(line, host)
  {
    if cfg.None? {
      return false;
    }
    found := AnyLine(SplitLines(cfg.value), line => HostLineNames(line, host));
  }

  /** The words of "Host " + name, for a one-word name. */
  lemma HostLineWords(host: string)
    requires IsToken(host)
    ensures SplitWs("Host " + host) == ["Host", host]
  {
    assert IsToken("Host");
    SplitWsJoin(["Host", host]);
    assert Join(["Host", host], " ") == "Host " + host;
  }

  /** "Host " matches the lower-case keyword. */
  lemma HostKeyword(rest: string)
    ensures CiStartsWith("Host " + rest, "host ")
    ensures !StartsWith("Host " + rest, "#")
  {
    var t := "Host " + rest;
    assert t[0] == 'H' && t[1] == 'o' && t[2] == 's' && t[3] == 't' && t[4] == ' ';
    assert LowerChar('H') == 'h';
  }

  /** A line "Host <name>", as the tool itself writes it, is recognised. */
  lemma HostLineRecognised(host: string)
    requires IsToken(host)
    ensures HostLineNames("Host " + host, host)
  {
    var t := "Host " + host;
    assert !IsSpace(t[0]) && t[|t| - 1] == host[|host| - 1];
    StripUnchanged(t);
    HostKeyword(host);
    HostLineWords(host);
    assert ["Host", host][1..] == [host];
  }

  /** A comment line never names a host. */
  lemma CommentLineIgnored(line: string, host: string)
    requires StartsWith(Strip(line), "#")
    ensures !HostLineNames(line, host)
  {
  }
}
