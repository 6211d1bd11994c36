/**
 * The per-disc manifest that lets a series disc be skipped on resume: where
 * it lives, when a parsed file counts as a manifest, and when every output
 * it lists exists. JSON decoding is an oracle from text to a JSON value;
 * the filesystem is the set of existing paths.
 */
module DiscManifest {

  import opened Common
  import opened Text
  import opened Paths

  /** A decoded JSON value. Integers and floats are both numbers. */
  datatype Json =
    | JNull
    | JBool(b: bool)
    | JNum(n: real)
    | JStr(s: string)
    | JArr(items: seq<Json>)
    | JObj(fields: map<string, Json>)

  const ManifestName: string := ".rip_and_encode_disc_manifest.json"
  const LegacyManifestName: string := ".rip_and_encode_v2_disc_manifest.json"

  /** _disc_manifest_path: the first name that exists, else the current name. */
  function DiscManifestPath(discDir: string, present: set<string>): (p: string)
    ensures p == JoinPath(discDir, ManifestName) || p == JoinPath(discDir, LegacyManifestName)
    ensures JoinPath(discDir, ManifestName) in present ==> p == JoinPath(discDir, ManifestName)
    ensures p == JoinPath(discDir, LegacyManifestName) && p != JoinPath(discDir, ManifestName) ==>
      p in present && JoinPath(discDir, ManifestName) !in present
    ensures p !in present ==> p == JoinPath(discDir, ManifestName)
  {
    if JoinPath(discDir, ManifestName) in present then JoinPath(discDir, ManifestName)
    else if JoinPath(discDir, LegacyManifestName) in present then JoinPath(discDir, LegacyManifestName)
    else JoinPath(discDir, ManifestName)
  }

  /**
   * Python's `value == 1`: the integer 1, the float 1.0 and True all
   * compare equal to 1.
   */
  predicate IsOne(v: Json)
  {
    v == JNum(1.0) || v == JBool(true)
  }

  /** A dict with version 1 and a list under "items". */
  predicate WellFormed(m: map<string, Json>)
  {
    && "version" in m && IsOne(m["version"])
    && "items" in m && m["items"].JArr?
  }

  /** The text handed to the decoder: an empty file reads as "{}". */
  function DecoderInput(text: string): (t: string)
    ensures text != [] ==> t == text
  {
    if text == [] then "{}" else text
  }

  /**
   * _load_disc_manifest over the content of the manifest file (None when it
   * does not exist) and the decoder (None when decoding fails).
   */
  function LoadDiscManifest(content: Option<string>, decode: string -> Option<Json>): (m: Option<map<string, Json>>)
    ensures m.Some? ==> WellFormed(m.value)
    ensures m.Some? ==> content.Some? && decode(DecoderInput(content.value)) == Some(JObj(m.value))
    ensures (content.Some? && decode(DecoderInput(content.value)).Some? && decode(DecoderInput(content.value)).value.JObj?
             && WellFormed(decode(DecoderInput(content.value)).value.fields)) ==> m.Some?
  {
    if content.None? then None
    else
      match decode(DecoderInput(content.value))
      case None => None
      case Some(data) =>
        if !data.JObj? then None
        else if !("version" in data.fields && IsOne(data.fields["version"])) then None
        else if !("items" in data.fields && data.fields["items"].JArr?) then None
        else Some(data.fields)
  }

  /** An empty file decodes to an empty dict, which has no version. */
  lemma EmptyFileIsNoManifest(decode: string -> Option<Json>)
    requires decode("{}") == Some(JObj(map[]))
    ensures LoadDiscManifest(Some(""), decode) == None
  {
  }

  /** A manifest with version 2 is ignored, as is one whose items are not a list. */
  lemma OtherVersionIsNoManifest(content: string, decode: string -> Option<Json>, m: map<string, Json>)
    requires decode(DecoderInput(content)) == Some(JObj(m))
    requires "version" in m && m["version"] == JNum(2.0)
    ensures LoadDiscManifest(Some(content), decode) == None
  {
  }

  /** One entry of "items" is a dict whose "output" is a non-empty string naming an existing path. */
  predicate OutputExists(item: Json, present: set<string>)
  {
    && item.JObj?
    && "output" in item.fields
    && item.fields["output"].JStr?
    && item.fields["output"].s != []
    && item.fields["output"].s in present
  }

  /** _manifest_outputs_complete: the loop over items, stopping at the first that fails. */
  method ManifestOutputsComplete(m: map<string, Json>, present: set<string>) returns (complete: bool)
    ensures complete <==>
      && "items" in m && m["items"].JArr? && |m["items"].items| > 0
      && forall i | 0 <= i < |m["items"].items| :: OutputExists(m["items"].items[i], present)
  {
    if !("items" in m && m["items"].JArr?) || m["items"].items == [] {
      return false;
    }
    var items := m["items"].items;
    var k := 0;
    while k < |items|
      invariant 0 <= k <= |items|
      invariant forall i | 0 <= i < k :: OutputExists(items[i], present)
    {
      if !OutputExists(items[k], present) {
        return false;
      }
      k := k + 1;
    }
    return true;
  }

  /** Outputs appearing later never make a complete manifest incomplete. */
  lemma CompleteStaysComplete(items: seq<Json>, present: set<string>, later: set<string>)
    requires present <= later
    requires forall i | 0 <= i < |items| :: OutputExists(items[i], present)
    ensures forall i | 0 <= i < |items| :: OutputExists(items[i], later)
  {
  }

  /**
   * The resume test of the series-disc step: a manifest loads and all its
   * outputs exist. A loaded manifest is a non-empty dict, so the source's
   * truthiness test on it never decides anything.
   */
  method DiscAlreadyProcessed(content: Option<string>, decode: string -> Option<Json>, present: set<string>)
    returns (skip: bool)
    ensures skip ==> LoadDiscManifest(content, decode).Some?
    ensures LoadDiscManifest(content, decode).Some? ==>
      (skip <==> var items := LoadDiscManifest(content, decode).value["items"].items;
                 |items| > 0 && forall i | 0 <= i < |items| :: OutputExists(items[i], present))
  {
    var manifest := LoadDiscManifest(content, decode);
    if manifest.None? {
      return false;
    }
    assert "version" in manifest.value;
    assert manifest.value != map[];
    skip := ManifestOutputsComplete(manifest.value, present);
  }
}
